/** Ordered containers as sequences in iteration order: searching, inserting, merging, and what they map. */
module SortedSeq {

  datatype Entry<K, V> = Entry(key: K, value: V)

  /** What a binary search needs: once the predicate holds it holds to the end. */
  ghost predicate Partitioned<T>(s: seq<T>, p: T -> bool) {
    forall i, j :: 0 <= i < j < |s| && p(s[i]) ==> p(s[j])
  }

  /** The partition point that upper_bound and lower_bound return. */
  function PartitionPoint<T>(s: seq<T>, p: T -> bool): (r: nat)
    requires Partitioned(s, p)
    ensures r <= |s|
    ensures forall i :: 0 <= i < r ==> !p(s[i])
    ensures forall i :: r <= i < |s| ==> p(s[i])
  {
    if s == [] then 0
    else if p(s[|s| - 1]) then
      assert Partitioned(s[..|s| - 1], p);
      PartitionPoint(s[..|s| - 1], p)
    else |s|
  }

  function InsertAt<T>(s: seq<T>, i: nat, x: T): (r: seq<T>)
    requires i <= |s|
    ensures |r| == |s| + 1 && r[i] == x
    ensures forall k :: 0 <= k < |s| ==> s[k] == r[if k < i then k else k + 1]
  {
    s[..i] + [x] + s[i..]
  }

  /** `std::merge`: stable, taking from b only what comes strictly before the front of a. */
  function Merge<T>(a: seq<T>, b: seq<T>, less: (T, T) -> bool): (r: seq<T>)
    ensures |r| == |a| + |b|
  {
    if a == [] then b
    else if b == [] then a
    else if less(b[0], a[0]) then [b[0]] + Merge(a, b[1..], less)
    else [a[0]] + Merge(a[1..], b, less)
  }

  function Map<T, U>(f: T -> U, s: seq<T>): (r: seq<U>)
    ensures |r| == |s|
    ensures forall i :: 0 <= i < |s| ==> r[i] == f(s[i])
  {
    seq(|s|, i requires 0 <= i < |s| => f(s[i]))
  }

  /** Merging and then reading the entries off is reading them off and then merging. */
  lemma {:induction false} MergeOfMaps<T, U>(a: seq<T>, b: seq<T>, less: (T, T) -> bool, f: T -> U,
                                             less': (U, U) -> bool)
    requires forall i, j :: 0 <= i < |a| && 0 <= j < |b| ==> less(b[j], a[i]) == less'(f(b[j]), f(a[i]))
    ensures Map(f, Merge(a, b, less)) == Merge(Map(f, a), Map(f, b), less')
    decreases |a| + |b|
  {
    if a != [] && b != [] {
      if less(b[0], a[0]) {
        MergeOfMaps(a, b[1..], less, f, less');
        assert Map(f, b)[1..] == Map(f, b[1..]);
        assert Map(f, [b[0]] + Merge(a, b[1..], less)) == [f(b[0])] + Map(f, Merge(a, b[1..], less));
      } else {
        MergeOfMaps(a[1..], b, less, f, less');
        assert Map(f, a)[1..] == Map(f, a[1..]);
        assert Map(f, [a[0]] + Merge(a[1..], b, less)) == [f(a[0])] + Map(f, Merge(a[1..], b, less));
      }
    }
  }

  // ---------------------------------------------------------------- entries in key order

  ghost predicate StrictOrder<K(!new)>(less: (K, K) -> bool) {
    && (forall a :: !less(a, a))
    && (forall a, b, c :: less(a, b) && less(b, c) ==> less(a, c))
    && (forall a, b :: less(a, b) || a == b || less(b, a))
  }

  ghost predicate Sorted<K, V>(s: seq<Entry<K, V>>, less: (K, K) -> bool) {
    forall i, j :: 0 <= i < j < |s| ==> less(s[i].key, s[j].key)
  }

  ghost predicate HasKey<K, V>(s: seq<Entry<K, V>>, k: K) {
    exists i :: 0 <= i < |s| && s[i].key == k
  }

  /** The same, but a key may be there more than once. */
  ghost predicate InOrder<K, V>(s: seq<Entry<K, V>>, less: (K, K) -> bool) {
    forall i, j :: 0 <= i < j < |s| ==> !less(s[j].key, s[i].key)
  }

  lemma SortedIsInOrder<K(!new), V>(s: seq<Entry<K, V>>, less: (K, K) -> bool)
    requires StrictOrder(less) && Sorted(s, less)
    ensures InOrder(s, less)
  {
  }

  /** What a search in an ordered container finds: for each key the first of its entries. */
  function AsMap<K, V>(s: seq<Entry<K, V>>): map<K, V> {
    if s == [] then map[] else AsMap(s[1..])[s[0].key := s[0].value]
  }

  lemma {:induction false} AsMapKeys<K, V>(s: seq<Entry<K, V>>, k: K)
    ensures k in AsMap(s) <==> HasKey(s, k)
  {
    if s != [] {
      AsMapKeys(s[1..], k);
      if HasKey(s, k) && s[0].key != k {
        var i :| 0 <= i < |s| && s[i].key == k;
        assert s[1..][i - 1].key == k;
      }
      if HasKey(s[1..], k) {
        var i :| 0 <= i < |s[1..]| && s[1..][i].key == k;
        assert s[i + 1].key == k;
      }
    }
  }

  lemma {:induction false} FirstIsMapped<K, V>(s: seq<Entry<K, V>>, i: nat)
    requires i < |s| && forall j :: 0 <= j < i ==> s[j].key != s[i].key
    ensures s[i].key in AsMap(s) && AsMap(s)[s[i].key] == s[i].value
  {
    if i > 0 { FirstIsMapped(s[1..], i - 1); }
  }

  lemma AsMapAt<K(!new), V>(s: seq<Entry<K, V>>, less: (K, K) -> bool, i: nat)
    requires StrictOrder(less) && Sorted(s, less) && i < |s|
    ensures s[i].key in AsMap(s) && AsMap(s)[s[i].key] == s[i].value
  {
    forall j | 0 <= j < i ensures s[j].key != s[i].key { assert less(s[j].key, s[i].key); }
    FirstIsMapped(s, i);
  }

  lemma InsertKeepsSorted<K, V>(s: seq<Entry<K, V>>, less: (K, K) -> bool, i: nat, e: Entry<K, V>)
    requires Sorted(s, less) && i <= |s|
    requires forall k :: 0 <= k < i ==> less(s[k].key, e.key)
    requires forall k :: i <= k < |s| ==> less(e.key, s[k].key)
    ensures Sorted(InsertAt(s, i, e), less)
  {
  }

  /** An entry with a new key, wherever it is put, adds just that key. */
  lemma {:induction false} InsertIsUpdate<K, V>(s: seq<Entry<K, V>>, i: nat, e: Entry<K, V>)
    requires i <= |s| && !HasKey(s, e.key)
    ensures AsMap(InsertAt(s, i, e)) == AsMap(s)[e.key := e.value]
    decreases i
  {
    var s' := InsertAt(s, i, e);
    if i == 0 {
      assert s'[1..] == s;
    } else {
      assert s'[0] == s[0] && s'[1..] == InsertAt(s[1..], i - 1, e);
      forall k | 0 <= k < |s[1..]| ensures s[1..][k].key != e.key { assert s[1..][k] == s[k + 1]; }
      InsertIsUpdate(s[1..], i - 1, e);
    }
  }

  lemma InsertedKeyIsNew<K(!new), V>(s: seq<Entry<K, V>>, less: (K, K) -> bool, i: nat, e: Entry<K, V>)
    requires StrictOrder(less) && i <= |s| && Sorted(InsertAt(s, i, e), less)
    ensures !HasKey(s, e.key)
  {
    var s' := InsertAt(s, i, e);
    forall k | 0 <= k < |s| ensures s[k].key != e.key {
      if k < i {
        assert s'[k] == s[k] && less(s'[k].key, s'[i].key);
      } else {
        assert s'[k + 1] == s[k] && less(s'[i].key, s'[k + 1].key);
      }
    }
  }

  /** Entries compared by their keys. */
  function ByKey<K, V>(less: (K, K) -> bool): (Entry<K, V>, Entry<K, V>) -> bool {
    (x: Entry<K, V>, y: Entry<K, V>) => less(x.key, y.key)
  }

  ghost predicate Disjoint<K, V>(a: seq<Entry<K, V>>, b: seq<Entry<K, V>>) {
    forall i, j :: 0 <= i < |a| && 0 <= j < |b| ==> a[i].key != b[j].key
  }

  /** The elements of a merge are those of its two inputs. */
  lemma {:induction false} MergeElements<T>(a: seq<T>, b: seq<T>, less: (T, T) -> bool, x: T)
    ensures x in Merge(a, b, less) <==> x in a || x in b
    decreases |a| + |b|
  {
    if a != [] && b != [] {
      if less(b[0], a[0]) {
        MergeElements(a, b[1..], less, x);
        assert b == [b[0]] + b[1..];
      } else {
        MergeElements(a[1..], b, less, x);
        assert a == [a[0]] + a[1..];
      }
    }
  }

  /** Merging two sorted ranges without a common key gives a sorted range without duplicates. */
  lemma {:induction false} MergeKeepsSorted<K(!new), V>(a: seq<Entry<K, V>>, b: seq<Entry<K, V>>, less: (K, K) -> bool)
    requires StrictOrder(less) && Sorted(a, less) && Sorted(b, less) && Disjoint(a, b)
    ensures Sorted(Merge(a, b, ByKey(less)), less)
    decreases |a| + |b|
  {
    if a != [] && b != [] {
      if less(b[0].key, a[0].key) {
        MergeKeepsSorted(a, b[1..], less);
        FrontIsLeast(b[0], a, b[1..], less);
        FrontThenSorted(b[0], Merge(a, b[1..], ByKey(less)), less);
      } else {
        MergeKeepsSorted(a[1..], b, less);
        FrontIsLeast(a[0], a[1..], b, less);
        FrontThenSorted(a[0], Merge(a[1..], b, ByKey(less)), less);
      }
    }
  }

  ghost predicate Before<K, V>(k: K, s: seq<Entry<K, V>>, less: (K, K) -> bool) {
    forall i :: 0 <= i < |s| ==> less(k, s[i].key)
  }

  lemma FrontThenSorted<K, V>(e: Entry<K, V>, s: seq<Entry<K, V>>, less: (K, K) -> bool)
    requires Sorted(s, less) && Before(e.key, s, less)
    ensures Sorted([e] + s, less)
  {
  }

  lemma FrontIsLeast<K(!new), V>(e: Entry<K, V>, a: seq<Entry<K, V>>, b: seq<Entry<K, V>>, less: (K, K) -> bool)
    requires StrictOrder(less) && Sorted(a, less) && Sorted(b, less)
    requires a != [] ==> less(e.key, a[0].key)
    requires b != [] ==> less(e.key, b[0].key)
    ensures Before(e.key, Merge(a, b, ByKey(less)), less)
  {
    var m := Merge(a, b, ByKey(less));
    forall i | 0 <= i < |m| ensures less(e.key, m[i].key) {
      MergeElements(a, b, ByKey(less), m[i]);
      if m[i] in a {
        var j :| 0 <= j < |a| && a[j] == m[i];
        if j > 0 { assert less(a[0].key, a[j].key); }
      } else {
        var j :| 0 <= j < |b| && b[j] == m[i];
        if j > 0 { assert less(b[0].key, b[j].key); }
      }
    }
  }

  lemma NotBeforeTransitive<K(!new)>(less: (K, K) -> bool, a: K, b: K, c: K)
    requires StrictOrder(less) && !less(a, b) && !less(b, c)
    ensures !less(a, c)
  {
  }

  /** The merge is in order too when keys repeat, in one range or in both. */
  lemma {:induction false} MergeInOrder<K(!new), V>(a: seq<Entry<K, V>>, b: seq<Entry<K, V>>, less: (K, K) -> bool)
    requires StrictOrder(less) && InOrder(a, less) && InOrder(b, less)
    ensures InOrder(Merge(a, b, ByKey(less)), less)
    decreases |a| + |b|
  {
    if a != [] && b != [] {
      if less(b[0].key, a[0].key) {
        MergeInOrder(a, b[1..], less);
        HeadFirst(b[0], a, b[1..], less);
        HeadInOrder(b[0], Merge(a, b[1..], ByKey(less)), less);
      } else {
        MergeInOrder(a[1..], b, less);
        HeadFirst(a[0], a[1..], b, less);
        HeadInOrder(a[0], Merge(a[1..], b, ByKey(less)), less);
      }
    }
  }

  ghost predicate NoneBefore<K, V>(k: K, s: seq<Entry<K, V>>, less: (K, K) -> bool) {
    forall i :: 0 <= i < |s| ==> !less(s[i].key, k)
  }

  lemma HeadInOrder<K, V>(e: Entry<K, V>, s: seq<Entry<K, V>>, less: (K, K) -> bool)
    requires InOrder(s, less) && NoneBefore(e.key, s, less)
    ensures InOrder([e] + s, less)
  {
  }

  lemma NoneBeforeHead<K(!new), V>(k: K, s: seq<Entry<K, V>>, less: (K, K) -> bool)
    requires StrictOrder(less) && InOrder(s, less) && (s != [] ==> !less(s[0].key, k))
    ensures NoneBefore(k, s, less)
  {
    forall i | 0 <= i < |s| ensures !less(s[i].key, k) {
      if i > 0 { NotBeforeTransitive(less, s[i].key, s[0].key, k); }
    }
  }

  lemma HeadFirst<K(!new), V>(e: Entry<K, V>, a: seq<Entry<K, V>>, b: seq<Entry<K, V>>, less: (K, K) -> bool)
    requires StrictOrder(less)
    requires InOrder([e] + a, less) || (InOrder(a, less) && (a != [] ==> !less(a[0].key, e.key)))
    requires InOrder([e] + b, less) || (InOrder(b, less) && (b != [] ==> !less(b[0].key, e.key)))
    ensures NoneBefore(e.key, Merge(a, b, ByKey(less)), less)
  {
    HeadOrFront(e, a, less);
    HeadOrFront(e, b, less);
    hide StrictOrder, InOrder;
    var m := Merge(a, b, ByKey(less));
    forall i | 0 <= i < |m| ensures !less(m[i].key, e.key) {
      MergeElements(a, b, ByKey(less), m[i]);
      if m[i] in a {
        var j :| 0 <= j < |a| && a[j] == m[i];
      } else {
        var j :| 0 <= j < |b| && b[j] == m[i];
      }
    }
  }

  lemma HeadOrFront<K(!new), V>(e: Entry<K, V>, s: seq<Entry<K, V>>, less: (K, K) -> bool)
    requires StrictOrder(less)
    requires InOrder([e] + s, less) || (InOrder(s, less) && (s != [] ==> !less(s[0].key, e.key)))
    ensures NoneBefore(e.key, s, less)
  {
    if InOrder([e] + s, less) {
      forall i | 0 <= i < |s| ensures !less(s[i].key, e.key) {
        assert ([e] + s)[i + 1] == s[i] && ([e] + s)[0] == e;
      }
    } else {
      NoneBeforeHead(e.key, s, less);
    }
  }

  /** And it maps what the two mapped; of a key in both, what the first range has comes first. */
  lemma {:induction false} MergeIsUnion<K(!new), V>(a: seq<Entry<K, V>>, b: seq<Entry<K, V>>, less: (K, K) -> bool)
    requires StrictOrder(less) && InOrder(a, less)
    ensures AsMap(Merge(a, b, ByKey(less))) == AsMap(b) + AsMap(a)
    decreases |a| + |b|
  {
    if a != [] && b != [] {
      if less(b[0].key, a[0].key) {
        MergeIsUnion(a, b[1..], less);
        NotAtOrAfter(a, b[0].key, less);
        AsMapKeys(a, b[0].key);
        var m := Merge(a, b[1..], ByKey(less));
        assert ([b[0]] + m)[1..] == m;
      } else {
        MergeIsUnion(a[1..], b, less);
        var m := Merge(a[1..], b, ByKey(less));
        assert ([a[0]] + m)[1..] == m;
      }
    }
  }

  lemma NotAtOrAfter<K(!new), V>(s: seq<Entry<K, V>>, k: K, less: (K, K) -> bool)
    requires StrictOrder(less) && InOrder(s, less) && s != [] && less(k, s[0].key)
    ensures !HasKey(s, k)
  {
    forall i | 0 <= i < |s| ensures s[i].key != k { if i > 0 { assert !less(s[i].key, s[0].key); } }
  }
}
