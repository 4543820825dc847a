/** Filtering, stable sorting and grouping by key, as JavaScript's arrays and maps do them. */
module Collections {

  // ---------------------------------------------------------------- filter

  function Filter<T>(s: seq<T>, p: T -> bool): seq<T> {
    if s == [] then [] else (if p(s[0]) then [s[0]] else []) + Filter(s[1..], p)
  }

  lemma FilterCons<T>(x: T, s: seq<T>, p: T -> bool)
    ensures Filter([x] + s, p) == (if p(x) then [x] else []) + Filter(s, p)
    ensures Filter([x], p) == if p(x) then [x] else []
  {
    assert ([x] + s)[1..] == s && [x][1..] == [];
  }

  lemma {:induction false} FilterConcat<T>(s: seq<T>, t: seq<T>, p: T -> bool)
    ensures Filter(s + t, p) == Filter(s, p) + Filter(t, p)
  {
    if s == [] {
      assert s + t == t;
    } else {
      assert s + t == [s[0]] + (s[1..] + t) && s == [s[0]] + s[1..];
      FilterCons(s[0], s[1..] + t, p);
      FilterConcat(s[1..], t, p);
    }
  }

  lemma FilterSnoc<T>(s: seq<T>, x: T, p: T -> bool)
    ensures Filter(s + [x], p) == if p(x) then Filter(s, p) + [x] else Filter(s, p)
  {
    FilterConcat(s, [x], p);
    FilterCons(x, [], p);
  }

  lemma {:induction false} FilterIn<T>(s: seq<T>, p: T -> bool)
    ensures forall x :: x in Filter(s, p) <==> x in s && p(x)
  {
    if s != [] {
      FilterIn(s[1..], p);
      assert forall x :: x in s <==> x == s[0] || x in s[1..];
    }
  }

  lemma {:induction false} FilterAll<T>(s: seq<T>, p: T -> bool)
    ensures (forall x :: x in s ==> p(x)) ==> Filter(s, p) == s
    ensures (forall x :: x in s ==> !p(x)) ==> Filter(s, p) == []
  {
    if s != [] {
      FilterAll(s[1..], p);
      assert s[0] in s && forall x :: x in s[1..] ==> x in s;
      assert s == [s[0]] + s[1..];
    }
  }

  ghost predicate Distinct<T>(s: seq<T>) { forall i, j :: 0 <= i < j < |s| ==> s[i] != s[j] }

  lemma FilterDistinct<T>(s: seq<T>, p: T -> bool)
    requires Distinct(s)
    ensures Distinct(Filter(s, p))
  {
    if s != [] {
      var first, tail := s[0], s[1..];
      var rest := Filter(tail, p);
      FilterDistinct(tail, p);
      assert first !in tail;
      FilterMember(tail, p, first);
      assert first !in rest;
    }
  }

  lemma FilterMember<T>(s: seq<T>, p: T -> bool, x: T)
    ensures x in Filter(s, p) <==> x in s && p(x)
  {
    FilterIn(s, p);
  }

  /** Filtering depends, up to order, on the members alone. */
  lemma {:induction false} FilterCount<T>(s: seq<T>, p: T -> bool, x: T)
    ensures multiset(Filter(s, p))[x] == if p(x) then multiset(s)[x] else 0
  {
    if s != [] {
      FilterCount(s[1..], p, x);
      assert s == [s[0]] + s[1..];
    }
  }

  lemma FilterSameMembers<T>(s: seq<T>, t: seq<T>, p: T -> bool)
    requires multiset(s) == multiset(t)
    ensures multiset(Filter(s, p)) == multiset(Filter(t, p))
  {
    var a, b := multiset(Filter(s, p)), multiset(Filter(t, p));
    forall x | x in a + b ensures a[x] == b[x] {
      FilterCount(s, p, x);
      FilterCount(t, p, x);
    }
    assert a == b;
  }

  // ---------------------------------------------------------------- flat map

  function FlatMap<T, U>(s: seq<T>, f: T -> seq<U>): seq<U> {
    if s == [] then [] else FlatMap(s[..|s| - 1], f) + f(s[|s| - 1])
  }

  lemma FlatMapSnoc<T, U>(s: seq<T>, x: T, f: T -> seq<U>)
    ensures FlatMap(s + [x], f) == FlatMap(s, f) + f(x)
  {
    assert (s + [x])[..|s|] == s;
  }

  lemma Regroup<T>(a: seq<T>, b: seq<T>, c: seq<T>)
    ensures (a + b) + c == a + (b + c)
  {
  }

  lemma LastOff<T>(s: seq<T>)
    requires s != []
    ensures s == s[..|s| - 1] + [s[|s| - 1]]
  {
  }

  lemma {:induction false} FlatMapConcat<T, U>(s: seq<T>, t: seq<T>, f: T -> seq<U>)
    ensures FlatMap(s + t, f) == FlatMap(s, f) + FlatMap(t, f)
  {
    if t == [] {
      assert s + t == s;
    } else {
      var init, x := t[..|t| - 1], t[|t| - 1];
      LastOff(t);
      Regroup(s, init, [x]);
      FlatMapConcat(s, init, f);
      FlatMapSnoc(s + init, x, f);
      FlatMapSnoc(init, x, f);
      Regroup(FlatMap(s, f), FlatMap(init, f), f(x));
    }
  }

  // ---------------------------------------------------------------- stable sort

  /** `less` sorts into classes: a strict weak order. */
  ghost predicate WeakOrder<T(!new)>(less: (T, T) -> bool) {
    && (forall x, y :: less(x, y) ==> !less(y, x))
    && (forall x, y, z :: less(x, z) ==> less(x, y) || less(y, z))
  }

  function Insert<T>(x: T, s: seq<T>, less: (T, T) -> bool): (r: seq<T>)
    ensures multiset(r) == multiset(s) + multiset{x}
  {
    if s == [] || !less(s[0], x) then [x] + s
    else
      assert s == [s[0]] + s[1..];
      [s[0]] + Insert(x, s[1..], less)
  }

  /** `[...s].sort(...)`, which is stable. */
  function Sort<T>(s: seq<T>, less: (T, T) -> bool): (r: seq<T>)
    ensures multiset(r) == multiset(s)
  {
    if s == [] then []
    else
      assert s == [s[0]] + s[1..];
      Insert(s[0], Sort(s[1..], less), less)
  }

  ghost predicate Ordered<T>(s: seq<T>, less: (T, T) -> bool) {
    forall i, j :: 0 <= i < j < |s| ==> !less(s[j], s[i])
  }

  lemma {:induction false} InsertOrdered<T(!new)>(x: T, s: seq<T>, less: (T, T) -> bool)
    requires WeakOrder(less) && Ordered(s, less)
    ensures Ordered(Insert(x, s, less), less)
  {
    if s != [] {
      if less(s[0], x) {
        var rest := Insert(x, s[1..], less);
        InsertOrdered(x, s[1..], less);
        forall y | y in rest ensures !less(y, s[0]) {
          assert y in multiset(rest);
          assert y == x || y in s[1..];
        }
      } else {
        forall y | y in s ensures !less(y, x) {
          var i :| 0 <= i < |s| && s[i] == y;
        }
      }
    }
  }

  lemma {:induction false} SortOrdered<T(!new)>(s: seq<T>, less: (T, T) -> bool)
    requires WeakOrder(less)
    ensures Ordered(Sort(s, less), less)
  {
    if s != [] {
      SortOrdered(s[1..], less);
      InsertOrdered(s[0], Sort(s[1..], less), less);
    }
  }

  /** `p` picks out things that are equally ranked. */
  ghost predicate OneClass<T(!new)>(p: T -> bool, less: (T, T) -> bool) {
    forall x, y :: p(x) && p(y) ==> !less(x, y)
  }

  lemma {:induction false} InsertStable<T(!new)>(x: T, s: seq<T>, less: (T, T) -> bool, p: T -> bool)
    requires OneClass(p, less)
    ensures Filter(Insert(x, s, less), p) == Filter([x], p) + Filter(s, p)
  {
    FilterCons(x, s, p);
    if s != [] && less(s[0], x) {
      assert !(p(s[0]) && p(x));
      InsertStable(x, s[1..], less, p);
      FilterCons(s[0], Insert(x, s[1..], less), p);
      FilterCons(s[0], s[1..], p);
      assert s == [s[0]] + s[1..];
      SwapEmpty(Filter([s[0]], p), Filter([x], p), Filter(s[1..], p));
    }
  }

  lemma SwapEmpty<T>(a: seq<T>, b: seq<T>, c: seq<T>)
    requires a == [] || b == []
    ensures a + (b + c) == b + (a + c)
  {
  }

  /** Equally ranked things keep their order. */
  lemma {:induction false} SortStable<T(!new)>(s: seq<T>, less: (T, T) -> bool, p: T -> bool)
    requires OneClass(p, less)
    ensures Filter(Sort(s, less), p) == Filter(s, p)
  {
    if s != [] {
      SortStable(s[1..], less, p);
      InsertStable(s[0], Sort(s[1..], less), less, p);
      FilterCons(s[0], s[1..], p);
      assert s == [s[0]] + s[1..];
    }
  }

  lemma {:induction false} CountOnce<T>(s: seq<T>, x: T)
    requires Distinct(s)
    ensures multiset(s)[x] <= 1
  {
    if s != [] {
      CountOnce(s[1..], x);
      assert s == [s[0]] + s[1..];
      if s[0] == x { assert x !in s[1..]; }
    }
  }

  lemma CountTwice<T>(s: seq<T>, i: nat, j: nat)
    requires i < j < |s| && s[i] == s[j]
    ensures multiset(s)[s[i]] >= 2
  {
    assert s == s[..j] + [s[j]] + s[j + 1..];
    assert s[..j][i] == s[i] && s[i] in multiset(s[..j]);
    assert multiset(s)[s[i]] == multiset(s[..j])[s[i]] + 1 + multiset(s[j + 1..])[s[i]];
  }

  /** Sorting repeats nothing. */
  lemma SortDistinct<T>(s: seq<T>, less: (T, T) -> bool)
    requires Distinct(s)
    ensures Distinct(Sort(s, less))
  {
    var r := Sort(s, less);
    forall i, j | 0 <= i < j < |r| ensures r[i] != r[j] {
      CountOnce(s, r[i]);
      if r[i] == r[j] { CountTwice(r, i, j); }
    }
  }

  lemma LeastFirst<T(!new)>(s: seq<T>, t: seq<T>, less: (T, T) -> bool)
    requires WeakOrder(less) && Ordered(s, less) && Ordered(t, less)
    requires multiset(s) == multiset(t) && s != [] && t != []
    ensures !less(s[0], t[0]) && !less(t[0], s[0])
  {
    assert s[0] in multiset(t) && t[0] in multiset(s);
    var i :| 0 <= i < |t| && t[i] == s[0];
    var j :| 0 <= j < |s| && s[j] == t[0];
    assert i == 0 || !less(t[i], t[0]);
    assert j == 0 || !less(s[j], s[0]);
  }

  lemma TailMembers<T>(s: seq<T>)
    requires s != []
    ensures multiset(s[1..]) == multiset(s) - multiset{s[0]}
  {
    assert s == [s[0]] + s[1..];
  }

  /** With no ties, sorting gives one result for one collection. */
  lemma {:induction false} SortedUnique<T(!new)>(s: seq<T>, t: seq<T>, less: (T, T) -> bool)
    requires WeakOrder(less) && (forall x, y :: !less(x, y) && !less(y, x) ==> x == y)
    requires Ordered(s, less) && Ordered(t, less) && multiset(s) == multiset(t)
    ensures s == t
  {
    assert |multiset(s)| == |s| && |multiset(t)| == |t|;
    if s != [] {
      LeastFirst(s, t, less);
      TailMembers(s);
      TailMembers(t);
      SortedUnique(s[1..], t[1..], less);
      assert s == [s[0]] + s[1..] && t == [t[0]] + t[1..];
    }
  }

  // ---------------------------------------------------------------- lexicographic order

  predicate Lex(a: seq<nat>, b: seq<nat>) {
    b != [] && (a == [] || a[0] < b[0] || (a[0] == b[0] && Lex(a[1..], b[1..])))
  }

  lemma {:induction false} LexTotal(a: seq<nat>, b: seq<nat>)
    ensures !(Lex(a, b) && Lex(b, a)) && (a == b <==> !Lex(a, b) && !Lex(b, a))
  {
    if a != [] && b != [] && a[0] == b[0] {
      LexTotal(a[1..], b[1..]);
      assert a == [a[0]] + a[1..] && b == [b[0]] + b[1..];
    }
  }

  lemma {:induction false} LexTransitive(a: seq<nat>, b: seq<nat>, c: seq<nat>)
    requires Lex(a, b) && Lex(b, c)
    ensures Lex(a, c)
  {
    if a != [] && a[0] == b[0] == c[0] {
      LexTransitive(a[1..], b[1..], c[1..]);
    }
  }

  /** Lexicographic order said by positions: where the two first differ the first is smaller, or it is a proper
      prefix of the second. */
  ghost predicate LexBy(a: seq<nat>, b: seq<nat>) {
    exists k: nat :: k <= |a| && k < |b| && a[..k] == b[..k] && (k == |a| || a[k] < b[k])
  }

  lemma {:induction false} LexExactly(a: seq<nat>, b: seq<nat>)
    ensures Lex(a, b) <==> LexBy(a, b)
  {
    if b == [] {
    } else if a == [] {
      assert a[..0] == b[..0];
    } else {
      LexExactly(a[1..], b[1..]);
      if Lex(a, b) { LexForward(a, b); }
      if LexBy(a, b) { LexBackward(a, b); }
    }
  }

  lemma Longer(a: seq<nat>, k: nat)
    requires a != [] && k <= |a[1..]|
    ensures a[..k + 1] == [a[0]] + a[1..][..k]
  {
  }

  lemma LexForward(a: seq<nat>, b: seq<nat>)
    requires a != [] && b != [] && Lex(a, b) && (Lex(a[1..], b[1..]) ==> LexBy(a[1..], b[1..]))
    ensures LexBy(a, b)
  {
    if a[0] < b[0] {
      assert a[..0] == b[..0];
    } else {
      var s, t := a[1..], b[1..];
      var k: nat :| k <= |s| && k < |t| && s[..k] == t[..k] && (k == |s| || s[k] < t[k]);
      Longer(a, k);
      Longer(b, k);
      assert a[..k + 1] == b[..k + 1];
    }
  }

  lemma LexBackward(a: seq<nat>, b: seq<nat>)
    requires a != [] && b != [] && LexBy(a, b) && (LexBy(a[1..], b[1..]) ==> Lex(a[1..], b[1..]))
    ensures Lex(a, b)
  {
    var k: nat :| k <= |a| && k < |b| && a[..k] == b[..k] && (k == |a| || a[k] < b[k]);
    if k > 0 {
      assert a[0] == a[..k][0] == b[..k][0] == b[0];
      assert a[1..][..k - 1] == a[..k][1..] && b[1..][..k - 1] == b[..k][1..];
    }
  }

  // ---------------------------------------------------------------- group by key

  /** The keys in order of first appearance, as a `Map` keeps them. */
  function Keys<T>(s: seq<T>, key: T -> string): (ks: seq<string>)
    ensures forall i, j :: 0 <= i < j < |ks| ==> ks[i] != ks[j]
    ensures forall k :: k in ks <==> exists i :: 0 <= i < |s| && key(s[i]) == k
  {
    if s == [] then []
    else
      var n := |s| - 1;
      var ks, k := Keys(s[..n], key), key(s[n]);
      assert forall i :: 0 <= i < n ==> s[..n][i] == s[i];
      if k in ks then ks else ks + [k]
  }

  function Bucket<T>(s: seq<T>, key: T -> string, k: string): seq<T> { Filter(s, x => key(x) == k) }

  lemma BucketSnoc<T>(s: seq<T>, x: T, key: T -> string, k: string)
    ensures Bucket(s + [x], key, k) == if key(x) == k then Bucket(s, key, k) + [x] else Bucket(s, key, k)
  {
    FilterConcat(s, [x], y => key(y) == k);
    assert [x][1..] == [];
  }

  function Contents<T>(s: seq<T>, key: T -> string, ks: seq<string>): multiset<T> {
    if ks == [] then multiset{} else multiset(Bucket(s, key, ks[0])) + Contents(s, key, ks[1..])
  }

  lemma {:induction false} ContentsConcat<T>(s: seq<T>, key: T -> string, ks: seq<string>, ls: seq<string>)
    ensures Contents(s, key, ks + ls) == Contents(s, key, ks) + Contents(s, key, ls)
  {
    if ks == [] {
      assert ks + ls == ls;
    } else {
      assert (ks + ls)[1..] == ks[1..] + ls;
      ContentsConcat(s, key, ks[1..], ls);
    }
  }

  lemma {:induction false} ContentsSnoc<T>(s: seq<T>, x: T, key: T -> string, ks: seq<string>)
    requires forall i, j :: 0 <= i < j < |ks| ==> ks[i] != ks[j]
    ensures Contents(s + [x], key, ks) == Contents(s, key, ks) + if key(x) in ks then multiset{x} else multiset{}
  {
    if ks != [] {
      ContentsSnoc(s, x, key, ks[1..]);
      BucketSnoc(s, x, key, ks[0]);
      assert key(x) in ks <==> key(x) == ks[0] || key(x) in ks[1..];
    }
  }

  lemma FreshBucket<T>(s: seq<T>, key: T -> string, k: string)
    requires k !in Keys(s, key)
    ensures Bucket(s, key, k) == []
  {
    forall x | x in s ensures key(x) != k {
      var i :| 0 <= i < |s| && s[i] == x;
    }
    FilterAll(s, y => key(y) == k);
  }

  /** Grouping loses nothing and duplicates nothing. */
  lemma {:induction false} BucketsCover<T>(s: seq<T>, key: T -> string)
    ensures Contents(s, key, Keys(s, key)) == multiset(s)
  {
    if s != [] {
      var init, x := s[..|s| - 1], s[|s| - 1];
      var ks := Keys(init, key);
      assert s == init + [x];
      BucketsCover(init, key);
      ContentsSnoc(init, x, key, ks);
      if key(x) !in ks {
        ContentsConcat(s, key, ks, [key(x)]);
        FreshBucket(init, key, key(x));
        BucketSnoc(init, x, key, key(x));
        assert Contents(s, key, [key(x)]) == multiset{x};
      }
    }
  }

  lemma BucketIn<T>(s: seq<T>, key: T -> string, k: string, x: T)
    ensures x in Bucket(s, key, k) <==> x in s && key(x) == k
  {
    FilterIn(s, y => key(y) == k);
  }

  lemma BucketNotEmpty<T>(s: seq<T>, key: T -> string, k: string)
    ensures k in Keys(s, key) <==> Bucket(s, key, k) != []
  {
    var bucket := Bucket(s, key, k);
    if bucket != [] {
      BucketIn(s, key, k, bucket[0]);
      var i :| 0 <= i < |s| && s[i] == bucket[0];
    }
    if k in Keys(s, key) {
      var i :| 0 <= i < |s| && key(s[i]) == k;
      BucketIn(s, key, k, s[i]);
    }
  }

  /** A `Map` being filled: its keys in insertion order, and the bucket of each. */
  ghost predicate Grouped<T>(s: seq<T>, key: T -> string, order: seq<string>, buckets: map<string, seq<T>>) {
    && order == Keys(s, key)
    && (forall k :: k in buckets <==> k in order)
    && (forall k :: k in buckets ==> buckets[k] == Bucket(s, key, k))
  }

  /** Every key has a bucket with something in it. */
  predicate Ready<T>(order: seq<string>, buckets: map<string, seq<T>>) {
    forall i :: 0 <= i < |order| ==> order[i] in buckets && buckets[order[i]] != []
  }

  lemma GroupedReady<T>(s: seq<T>, key: T -> string, order: seq<string>, buckets: map<string, seq<T>>)
    requires Grouped(s, key, order, buckets)
    ensures Ready(order, buckets)
    ensures forall k :: k in order ==> buckets[k] == Bucket(s, key, k)
  {
    forall k | k in order ensures Bucket(s, key, k) != [] { BucketNotEmpty(s, key, k); }
  }

  /** Pushing into an existing bucket files one more element. */
  lemma FileAgain<T>(s: seq<T>, key: T -> string, order: seq<string>, buckets: map<string, seq<T>>, x: T)
    requires Grouped(s, key, order, buckets) && key(x) in buckets
    ensures Grouped(s + [x], key, order, buckets[key(x) := buckets[key(x)] + [x]])
  {
    var next := buckets[key(x) := buckets[key(x)] + [x]];
    assert (s + [x])[..|s|] == s;
    forall k | k in next ensures next[k] == Bucket(s + [x], key, k) { BucketSnoc(s, x, key, k); }
  }

  /** So does setting a new one. */
  lemma FileFirst<T>(s: seq<T>, key: T -> string, order: seq<string>, buckets: map<string, seq<T>>, x: T)
    requires Grouped(s, key, order, buckets) && key(x) !in buckets
    ensures Grouped(s + [x], key, order + [key(x)], buckets[key(x) := [x]])
  {
    var next := buckets[key(x) := [x]];
    assert (s + [x])[..|s|] == s;
    FreshBucket(s, key, key(x));
    forall k | k in next ensures next[k] == Bucket(s + [x], key, k) { BucketSnoc(s, x, key, k); }
  }

  lemma NothingFiled<T>(key: T -> string)
    ensures Grouped([], key, [], map[])
  {
  }

  /** The loop `for (const x of items) { push x into the bucket of its key, or set a new one }`. The `Map` is
      its keys in insertion order and the bucket of each. */
  method FileAll<T>(ghost seen: seq<T>, items: seq<T>, key: T -> string, order: seq<string>, buckets: map<string,
                    seq<T>>)
    returns (order': seq<string>, buckets': map<string, seq<T>>)
    requires Grouped(seen, key, order, buckets)
    ensures Grouped(seen + items, key, order', buckets')
  {
    order', buckets' := order, buckets;
    assert seen + items[..0] == seen;
    for n := 0 to |items|
      invariant Grouped(seen + items[..n], key, order', buckets')
    {
      var x := items[n];
      ghost var filed := seen + items[..n];
      assert seen + items[..n + 1] == filed + [x];
      if key(x) in buckets' {
        FileAgain(filed, key, order', buckets', x);
        buckets' := buckets'[key(x) := buckets'[key(x)] + [x]];
      } else {
        FileFirst(filed, key, order', buckets', x);
        buckets' := buckets'[key(x) := [x]];
        order' := order' + [key(x)];
      }
    }
    assert items[..|items|] == items;
  }

  lemma BucketSameMembers<T>(s: seq<T>, t: seq<T>, key: T -> string, k: string)
    requires multiset(s) == multiset(t)
    ensures multiset(Bucket(s, key, k)) == multiset(Bucket(t, key, k))
    ensures k in Keys(s, key) <==> k in Keys(t, key)
  {
    FilterSameMembers(s, t, x => key(x) == k);
    BucketNotEmpty(s, key, k);
    BucketNotEmpty(t, key, k);
    assert |multiset(Bucket(s, key, k))| == |Bucket(s, key, k)| && |multiset(Bucket(t, key, k))| == |Bucket(t, key, k)|;
  }

  lemma CutAround<T>(s: seq<T>, j: nat)
    requires j < |s|
    ensures s == s[..j] + ([s[j]] + s[j + 1..])
  {
  }

  lemma NothingBefore<T>(s: seq<T>)
    requires s != []
    ensures s[..0] + s[1..] == s[1..]
  {
  }

  lemma SameMembersIn<T>(s: seq<T>, t: seq<T>)
    requires multiset(s) == multiset(t)
    ensures forall x :: x in s <==> x in t
  {
    forall x ensures x in s <==> x in t { assert x in s <==> x in multiset(s); }
  }

  lemma MiddleOut<T>(a: seq<T>, b: seq<T>, c: seq<T>)
    ensures multiset(a + (b + c)) == multiset(b) + multiset(a + c)
  {
    assert multiset(a + (b + c)) == multiset(a) + (multiset(b) + multiset(c));
  }

  /** Where the first of `a` stands in `b`, and that the rest are the rest. */
  lemma Without<T>(a: seq<T>, b: seq<T>) returns (j: nat)
    requires multiset(a) == multiset(b) && a != []
    ensures j < |b| && b[j] == a[0]
    ensures multiset(a[1..]) == multiset(b[..j] + b[j + 1..])
  {
    assert a[0] in multiset(b);
    j :| 0 <= j < |b| && b[j] == a[0];
    CutAround(b, j);
    TailMembers(a);
    MiddleOut(b[..j], [b[j]], b[j + 1..]);
  }
}
