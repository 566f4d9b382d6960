/**
 * A table kept in two parts: a set that takes new entries and a flat sorted vector that answers
 * searches. Entries are stored encoded; here they are seen decoded, as a key and the offset of
 * their value.
 */
module FlatTable {
  import opened Names
  import opened SortedSeq

  type Decoded<K> = seq<Entry<K, nat>>

  /**
   * The set is in order without duplicates, the vector is in order, and both point at values there
   * are. A key may be in both parts, and then it may be in the vector more than once later on.
   */
  ghost predicate PartsOk<K(!new)>(fresh_: Decoded<K>, flat: Decoded<K>, less: (K, K) -> bool, n: nat) {
    Sorted(fresh_, less) && InOrder(flat, less) && OffsetsBelow(fresh_, n) && OffsetsBelow(flat, n)
  }

  lemma PartsInOrder<K(!new)>(fresh_: Decoded<K>, flat: Decoded<K>, less: (K, K) -> bool, n: nat)
    requires StrictOrder(less) && PartsOk(fresh_, flat, less, n)
    ensures InOrder(fresh_, less) && InOrder(flat, less)
  {
    SortedIsInOrder(fresh_, less);
  }

  ghost predicate OffsetsBelow<K>(s: Decoded<K>, n: nat) {
    forall i :: 0 <= i < |s| ==> s[i].value < n
  }

  /** What a search finds after the set has been merged into the vector. */
  function Together<K>(fresh_: Decoded<K>, flat: Decoded<K>): map<K, nat> { AsMap(flat) + AsMap(fresh_) }

  ghost predicate MapBelow<K(!new)>(m: map<K, nat>, n: nat) { forall k :: k in m ==> m[k] < n }

  /** The values that the offsets of a table stand for. */
  function Resolve<K, V>(values: seq<V>, m: map<K, nat>): map<K, V> {
    map k | k in m && m[k] < |values| :: values[m[k]]
  }

  lemma {:induction false} MappedBelow<K(!new)>(s: Decoded<K>, n: nat)
    requires OffsetsBelow(s, n)
    ensures MapBelow(AsMap(s), n)
  {
    if s != [] { MappedBelow(s[1..], n); }
  }

  lemma TogetherBelow<K(!new)>(fresh_: Decoded<K>, flat: Decoded<K>, less: (K, K) -> bool, n: nat)
    requires PartsOk(fresh_, flat, less, n)
    ensures MapBelow(Together(fresh_, flat), n)
  {
    MappedBelow(fresh_, n);
    MappedBelow(flat, n);
  }

  /** A value added at the end changes nothing for the entries there are. */
  lemma ResolveGrows<K(!new), V>(values: seq<V>, m: map<K, nat>, v: V)
    requires MapBelow(m, |values|)
    ensures Resolve(values + [v], m) == Resolve(values, m)
  {
  }

  lemma ResolveInsert<K(!new), V>(values: seq<V>, m: map<K, nat>, k: K, offset: nat)
    requires offset < |values|
    ensures Resolve(values, m[k := offset]) == Resolve(values, m)[k := values[offset]]
  {
  }

  lemma ResolveKeys<K(!new), V>(values: seq<V>, m: map<K, nat>)
    requires MapBelow(m, |values|)
    ensures Resolve(values, m).Keys == m.Keys
  {
  }

  /** A key new to the set goes in at its place, and its value is the one found from then on. */
  lemma InsertKeepsParts<K(!new)>(fresh_: Decoded<K>, flat: Decoded<K>, less: (K, K) -> bool, n: nat, p: nat,
                                  e: Entry<K, nat>)
    requires StrictOrder(less) && PartsOk(fresh_, flat, less, n)
    requires p <= |fresh_| && Sorted(InsertAt(fresh_, p, e), less) && e.value < n
    ensures PartsOk(InsertAt(fresh_, p, e), flat, less, n)
    ensures Together(InsertAt(fresh_, p, e), flat) == Together(fresh_, flat)[e.key := e.value]
    ensures !HasKey(flat, e.key) ==> e.key !in Together(fresh_, flat)
  {
    InsertedKeyIsNew(fresh_, less, p, e);
    InsertIsUpdate(fresh_, p, e);
    AsMapKeys(fresh_, e.key);
    AsMapKeys(flat, e.key);
    var s' := InsertAt(fresh_, p, e);
    hide StrictOrder, Sorted, InOrder, AsMap, HasKey;
    forall i | 0 <= i < |s'| ensures s'[i].value < n {
      if i != p { assert s'[i] == fresh_[if i < p then i else i - 1]; }
    }
  }

  /** Merging the set into the flat part changes nothing that a search finds. */
  lemma FlattenKeepsParts<K(!new)>(fresh_: Decoded<K>, flat: Decoded<K>, less: (K, K) -> bool, n: nat)
    requires StrictOrder(less) && PartsOk(fresh_, flat, less, n)
    ensures var merged := Merge(fresh_, flat, ByKey(less));
            PartsOk([], merged, less, n) && Together([], merged) == Together(fresh_, flat)
  {
    var merged := Merge(fresh_, flat, ByKey(less));
    SortedIsInOrder(fresh_, less);
    MergeInOrder(fresh_, flat, less);
    MergeIsUnion(fresh_, flat, less);
    hide StrictOrder, AsMap;
    forall i | 0 <= i < |merged| ensures merged[i].value < n { MergeElements(fresh_, flat, ByKey(less), merged[i]); }
    assert Together([], merged) == AsMap(merged) by { FlatAlone(merged); }
  }

  lemma FlatAlone<K>(flat: Decoded<K>)
    ensures Together([], flat) == AsMap(flat)
  {
    assert AsMap<K, nat>([]) == map[];
  }

  lemma KeysTogether<K(!new)>(fresh_: Decoded<K>, flat: Decoded<K>, k: K)
    ensures k in Together(fresh_, flat) <==> HasKey(fresh_, k) || HasKey(flat, k)
  {
    AsMapKeys(fresh_, k);
    AsMapKeys(flat, k);
  }

  /** Where lower_bound points is the first entry with the key, if there is one. */
  lemma LowerBoundFinds<K(!new)>(s: Decoded<K>, less: (K, K) -> bool, k: K, p: nat)
    requires StrictOrder(less) && InOrder(s, less) && p <= |s|
    requires forall i :: 0 <= i < p ==> less(s[i].key, k)
    requires forall i :: p <= i < |s| ==> !less(s[i].key, k)
    ensures HasKey(s, k) <==> p < |s| && s[p].key == k
    ensures k in AsMap(s) <==> p < |s| && s[p].key == k
    ensures k in AsMap(s) ==> AsMap(s)[k] == s[p].value
  {
    AsMapKeys(s, k);
    if HasKey(s, k) {
      var i :| 0 <= i < |s| && s[i].key == k;
      assert p <= i;
      if p < i { assert !less(s[i].key, s[p].key); }
      assert s[p].key == k;
      FirstIsMapped(s, p);
    }
  }

  /** Where a key starts in a range in order, lower_bound's predicate changes. */
  lemma NotBeforeStays<K(!new)>(s: Decoded<K>, less: (K, K) -> bool, k: K, i: nat, j: nat)
    requires StrictOrder(less) && InOrder(s, less) && i < j < |s| && !less(s[i].key, k)
    ensures !less(s[j].key, k)
  {
    NotBeforeTransitive(less, s[j].key, s[i].key, k);
  }

  /** Before its lower bound everything comes before a new key, and after it everything comes after. */
  lemma InsertAtLowerBound<K(!new)>(s: Decoded<K>, less: (K, K) -> bool, e: Entry<K, nat>, p: nat)
    requires StrictOrder(less) && Sorted(s, less) && p <= |s|
    requires forall i :: 0 <= i < p ==> less(s[i].key, e.key)
    requires forall i :: p <= i < |s| ==> !less(s[i].key, e.key)
    requires p < |s| ==> s[p].key != e.key
    ensures Sorted(InsertAt(s, p, e), less)
  {
    forall i | p <= i < |s| ensures less(e.key, s[i].key) {
      if i > p { assert less(s[p].key, s[i].key); }
    }
    hide StrictOrder;
    InsertKeepsSorted(s, less, p, e);
  }

  lemma MapInsert<T, U>(f: T -> U, s: seq<T>, p: nat, x: T)
    requires p <= |s|
    ensures Map(f, InsertAt(s, p, x)) == InsertAt(Map(f, s), p, f(x))
  {
  }

  /** An entry offered to the set: whether it is new there and to the vector, and what it changes if it goes in. */
  lemma KeyInserted<K(!new), V>(values: seq<V>, fresh_: Decoded<K>, flat: Decoded<K>, less: (K, K) -> bool,
                                p: nat, q: nat, e: Entry<K, nat>)
    requires StrictOrder(less) && PartsOk(fresh_, flat, less, |values|) && e.value < |values|
    requires p <= |fresh_| && (forall i :: 0 <= i < p ==> less(fresh_[i].key, e.key))
    requires forall i :: p <= i < |fresh_| ==> !less(fresh_[i].key, e.key)
    requires q <= |flat| && (forall i :: 0 <= i < q ==> less(flat[i].key, e.key))
    requires forall i :: q <= i < |flat| ==> !less(flat[i].key, e.key)
    ensures HasKey(fresh_, e.key) <==> p < |fresh_| && fresh_[p].key == e.key
    ensures HasKey(flat, e.key) <==> q < |flat| && flat[q].key == e.key
    ensures e.key in Resolve(values, Together(fresh_, flat)) <==> HasKey(fresh_, e.key) || HasKey(flat, e.key)
    ensures !HasKey(fresh_, e.key) ==>
              && PartsOk(InsertAt(fresh_, p, e), flat, less, |values|)
              && Resolve(values, Together(InsertAt(fresh_, p, e), flat))
                 == Resolve(values, Together(fresh_, flat))[e.key := values[e.value]]
  {
    SortedIsInOrder(fresh_, less);
    hide StrictOrder, Sorted, InOrder, AsMap, InsertAt, HasKey, Together;
    LowerBoundFinds(fresh_, less, e.key, p);
    LowerBoundFinds(flat, less, e.key, q);
    TogetherBelow(fresh_, flat, less, |values|);
    ResolveKeys(values, Together(fresh_, flat));
    KeysTogether(fresh_, flat, e.key);
    if !HasKey(fresh_, e.key) {
      InsertAtLowerBound(fresh_, less, e, p);
      InsertKeepsParts(fresh_, flat, less, |values|, p, e);
      ResolveInsert(values, Together(fresh_, flat), e.key, e.value);
    }
  }
}
