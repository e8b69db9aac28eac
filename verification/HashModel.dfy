/** The hash table as a value: buckets of key-value pairs, and what its operations mean. */
module HashModel {
  import opened Common

  /** The first pair with key k, as the chain walk finds it. */
  function Find<K(==), V>(b: seq<(K, V)>, k: K): (r: Option<nat>)
    ensures r.Some? ==> r.value < |b| && b[r.value].0 == k && forall i :: 0 <= i < r.value ==> b[i].0 != k
    ensures r.None? ==> forall i :: 0 <= i < |b| ==> b[i].0 != k
  {
    First(b, (p: (K, V)) => p.0 == k)
  }

  function Without<T>(b: seq<T>, i: nat): seq<T>
    requires i < |b|
  {
    b[..i] + b[i + 1..]
  }

  /** All elements of all buckets, in table order. */
  function Flat<T>(buckets: seq<seq<T>>): seq<T> {
    if buckets == [] then [] else buckets[0] + Flat(buckets[1..])
  }

  lemma {:induction false} FlatConcat<T>(a: seq<seq<T>>, b: seq<seq<T>>)
    ensures Flat(a + b) == Flat(a) + Flat(b)
  {
    if a == [] {
      assert a + b == b;
    } else {
      FlatConcat(a[1..], b);
      assert (a + b)[1..] == a[1..] + b;
    }
  }

  /** One bucket taken out of its place. */
  lemma FlatAround<T>(bs: seq<seq<T>>, i: nat)
    requires i < |bs|
    ensures Flat(bs) == Flat(bs[..i]) + bs[i] + Flat(bs[i + 1..])
  {
    assert bs == bs[..i] + bs[i..];
    FlatConcat(bs[..i], bs[i..]);
    assert bs[i..][1..] == bs[i + 1..];
  }

  /** Replacing one bucket replaces its part of the whole. */
  lemma FlatReplace<T>(bs: seq<seq<T>>, i: nat, b: seq<T>)
    requires i < |bs|
    ensures Flat(bs[i := b]) == Flat(bs[..i]) + b + Flat(bs[i + 1..])
  {
    FlatAround(bs[i := b], i);
    assert bs[i := b][..i] == bs[..i] && bs[i := b][i + 1..] == bs[i + 1..];
  }

  // ---------- Placement and lookup ----------

  /** Every pair sits in the bucket its hash names. */
  ghost predicate Placed<K, V>(hash: K -> nat, bs: seq<seq<(K, V)>>) {
    |bs| > 0 && forall b, i :: 0 <= b < |bs| && 0 <= i < |bs[b]| ==> hash(bs[b][i].0) % |bs| == b
  }

  function Bucket<K, V>(hash: K -> nat, bs: seq<seq<(K, V)>>, k: K): (b: nat)
    requires |bs| > 0
    ensures b < |bs|
  {
    hash(k) % |bs|
  }

  /** What a search for k returns. */
  function Lookup<K(==), V>(hash: K -> nat, bs: seq<seq<(K, V)>>, k: K): Option<V>
    requires |bs| > 0
  {
    var b := bs[Bucket(hash, bs, k)];
    match Find(b, k)
    case None => None
    case Some(i) => Some(b[i].1)
  }

  /** A pair put at the head of its bucket. */
  function Pushed<K, V>(hash: K -> nat, bs: seq<seq<(K, V)>>, p: (K, V)): (r: seq<seq<(K, V)>>)
    requires |bs| > 0
    ensures |r| == |bs|
  {
    var b := Bucket(hash, bs, p.0);
    bs[b := [p] + bs[b]]
  }

  lemma PushedKeeps<K, V>(hash: K -> nat, bs: seq<seq<(K, V)>>, p: (K, V))
    requires Placed(hash, bs)
    ensures Placed(hash, Pushed(hash, bs, p))
    ensures multiset(Flat(Pushed(hash, bs, p))) == multiset(Flat(bs)) + multiset{p}
    ensures |Flat(Pushed(hash, bs, p))| == |Flat(bs)| + 1
  {
    var b := Bucket(hash, bs, p.0);
    FlatAround(bs, b);
    FlatReplace(bs, b, [p] + bs[b]);
    var r: seq<seq<(K, V)>> := Pushed(hash, bs, p);
    forall c, i | 0 <= c < |r| && 0 <= i < |r[c]|
      ensures hash(r[c][i].0) % |r| == c
    {
      if c == b && i > 0 {
        assert r[c][i] == bs[c][i - 1];
      }
    }
  }

  // ---------- Rehashing ----------

  /** Pops the heads of one bucket onto the new table until it is empty. */
  function PushAll<K, V>(hash: K -> nat, b: seq<(K, V)>, into: seq<seq<(K, V)>>): (r: seq<seq<(K, V)>>)
    requires |into| > 0
    ensures |r| == |into|
  {
    if b == [] then into else PushAll(hash, b[1..], Pushed(hash, into, b[0]))
  }

  /** Empties all buckets, in table order, into the new table. */
  function Rehash<K, V>(hash: K -> nat, bs: seq<seq<(K, V)>>, into: seq<seq<(K, V)>>): (r: seq<seq<(K, V)>>)
    requires |into| > 0
    ensures |r| == |into|
  {
    if bs == [] then into else Rehash(hash, bs[1..], PushAll(hash, bs[0], into))
  }

  /** Rehashing is popping the whole table, in table order. */
  lemma {:induction false} RehashIsPushAll<K, V>(hash: K -> nat, bs: seq<seq<(K, V)>>, into: seq<seq<(K, V)>>)
    requires |into| > 0
    ensures Rehash(hash, bs, into) == PushAll(hash, Flat(bs), into)
  {
    if bs != [] {
      RehashIsPushAll(hash, bs[1..], PushAll(hash, bs[0], into));
      PushAllConcat(hash, bs[0], Flat(bs[1..]), into);
    }
  }

  lemma {:induction false} PushAllConcat<K, V>(hash: K -> nat, a: seq<(K, V)>, b: seq<(K, V)>, into: seq<seq<(K, V)>>)
    requires |into| > 0
    ensures PushAll(hash, a + b, into) == PushAll(hash, b, PushAll(hash, a, into))
    decreases |a|
  {
    if a == [] {
      assert a + b == b;
    } else {
      assert (a + b)[1..] == a[1..] + b && (a + b)[0] == a[0];
      PushAllConcat(hash, a[1..], b, Pushed(hash, into, a[0]));
    }
  }

  lemma {:induction false} PushAllKeeps<K, V>(hash: K -> nat, b: seq<(K, V)>, into: seq<seq<(K, V)>>)
    requires Placed(hash, into)
    ensures var r := PushAll(hash, b, into);
            && Placed(hash, r) && |Flat(r)| == |Flat(into)| + |b|
            && multiset(Flat(r)) == multiset(Flat(into)) + multiset(b)
    decreases |b|
  {
    if b != [] {
      PushedKeeps(hash, into, b[0]);
      PushAllKeeps(hash, b[1..], Pushed(hash, into, b[0]));
      assert b == [b[0]] + b[1..];
    }
  }

  /** The chain of pairs for one key, oldest position last. */
  function Of<K(==), V>(b: seq<(K, V)>, k: K): seq<(K, V)> {
    if b == [] then [] else (if b[0].0 == k then [b[0]] else []) + Of(b[1..], k)
  }

  /** The pairs for k end up in k's new bucket in the opposite order: the transfer is not stable. */
  lemma {:induction false} PushAllReverses<K, V>(hash: K -> nat, b: seq<(K, V)>, into: seq<seq<(K, V)>>, k: K)
    requires |into| > 0
    ensures var n := Bucket(hash, into, k);
            Of(PushAll(hash, b, into)[n], k) == Reversed(Of(b, k)) + Of(into[n], k)
    decreases |b|
  {
    if b != [] {
      var n := Bucket(hash, into, k);
      var into' := Pushed(hash, into, b[0]);
      PushAllReverses(hash, b[1..], into', k);
      var head := if b[0].0 == k then [b[0]] else [];
      OfPushed(hash, into, b[0], k);
      ReversedConcat(head, Of(b[1..], k));
      assert Reversed(head) == head;
      assert (Reversed(Of(b[1..], k)) + head) + Of(into[n], k) == Reversed(Of(b[1..], k)) + (head + Of(into[n], k));
    }
  }

  lemma OfPushed<K, V>(hash: K -> nat, into: seq<seq<(K, V)>>, p: (K, V), k: K)
    requires |into| > 0
    ensures var n := Bucket(hash, into, k);
            Of(Pushed(hash, into, p)[n], k) == (if p.0 == k then [p] else []) + Of(into[n], k)
  {
  }

  // ---------- Search before and after a growth ----------

  lemma {:induction false} OfConcat<K, V>(a: seq<(K, V)>, b: seq<(K, V)>, k: K)
    ensures Of(a + b, k) == Of(a, k) + Of(b, k)
  {
    if a == [] {
      assert a + b == b;
    } else {
      var head := if a[0].0 == k then [a[0]] else [];
      calc {
        Of(a + b, k);
        { assert (a + b)[1..] == a[1..] + b; }
        head + Of(a[1..] + b, k);
        { OfConcat(a[1..], b, k); }
        head + (Of(a[1..], k) + Of(b, k));
        Of(a, k) + Of(b, k);
      }
    }
  }

  lemma {:induction false} OfAbsent<K, V>(b: seq<(K, V)>, k: K)
    requires forall i :: 0 <= i < |b| ==> b[i].0 != k
    ensures Of(b, k) == []
  {
    if b != [] {
      OfAbsent(b[1..], k);
    }
  }

  /** A search answers with the first of the pairs for its key. */
  lemma LookupIsFirst<K, V>(hash: K -> nat, bs: seq<seq<(K, V)>>, k: K)
    requires |bs| > 0
    ensures var c := Of(bs[Bucket(hash, bs, k)], k);
            Lookup(hash, bs, k) == if c == [] then None else Some(c[0].1)
  {
    var b := bs[Bucket(hash, bs, k)];
    match Find(b, k)
    case None => OfAbsent(b, k);
    case Some(i) =>
      assert b == b[..i] + b[i..];
      OfConcat(b[..i], b[i..], k);
      OfAbsent(b[..i], k);
  }

  /** All pairs for k are in k's bucket. */
  lemma {:induction false} OfFlat<K, V>(hash: K -> nat, bs: seq<seq<(K, V)>>, k: K)
    requires Placed(hash, bs)
    ensures Of(Flat(bs), k) == Of(bs[Bucket(hash, bs, k)], k)
  {
    var n := Bucket(hash, bs, k);
    FlatAround(bs, n);
    OfConcat(Flat(bs[..n]) + bs[n], Flat(bs[n + 1..]), k);
    OfConcat(Flat(bs[..n]), bs[n], k);
    OfElsewhere(hash, bs, k, 0, n);
    OfElsewhere(hash, bs, k, n + 1, |bs|);
    assert bs[0..n] == bs[..n] && bs[n + 1..|bs|] == bs[n + 1..];
  }

  lemma {:induction false} OfElsewhere<K, V>(hash: K -> nat, bs: seq<seq<(K, V)>>, k: K, i: nat, j: nat)
    requires Placed(hash, bs) && i <= j <= |bs|
    requires !(i <= Bucket(hash, bs, k) < j)
    ensures Of(Flat(bs[i..j]), k) == []
    decreases j - i
  {
    if i < j {
      assert bs[i..j][1..] == bs[i + 1..j];
      OfElsewhere(hash, bs, k, i + 1, j);
      OfConcat(bs[i], Flat(bs[i + 1..j]), k);
      OfAbsent(bs[i], k);
    }
  }

  /** n empty buckets. */
  ghost function NoPairs<T>(n: nat): (r: seq<seq<T>>)
    ensures |r| == n && forall b :: 0 <= b < n ==> r[b] == []
  {
    seq(n, _ => [])
  }

  ghost predicate Empty<T>(bs: seq<seq<T>>) {
    |bs| > 0 && forall b :: 0 <= b < |bs| ==> bs[b] == []
  }

  /** After the table has grown, a search answers with the last of the pairs for its key. */
  lemma GrowthAnswersLast<K, V>(hash: K -> nat, bs: seq<seq<(K, V)>>, into: seq<seq<(K, V)>>, k: K)
    requires Placed(hash, bs) && Empty(into)
    ensures var c := Of(bs[Bucket(hash, bs, k)], k);
            Lookup(hash, Rehash(hash, bs, into), k) == if c == [] then None else Some(c[|c| - 1].1)
  {
    hide Rehash, PushAll, Flat, Lookup;
    var c := Of(bs[Bucket(hash, bs, k)], k);
    var r := Rehash(hash, bs, into);
    LookupIsFirst(hash, r, k);
    RehashIsPushAll(hash, bs, into);
    PushAllReverses(hash, Flat(bs), into, k);
    OfFlat(hash, bs, k);
    assert Of(r[Bucket(hash, r, k)], k) == Reversed(c);
    if c != [] {
      assert c == c[..|c| - 1] + [c[|c| - 1]];
      ReversedConcat(c[..|c| - 1], [c[|c| - 1]]);
      assert Reversed([c[|c| - 1]]) == [c[|c| - 1]];
    }
  }

  /** Growing the table keeps the answer for a key exactly when the first and the last pair for it
      agree: with duplicate keys the transfer exposes the oldest one. */
  lemma GrowthKeepsAnswerIff<K, V>(hash: K -> nat, bs: seq<seq<(K, V)>>, into: seq<seq<(K, V)>>, k: K)
    requires Placed(hash, bs) && Empty(into)
    ensures var c := Of(bs[Bucket(hash, bs, k)], k);
            Lookup(hash, Rehash(hash, bs, into), k) == Lookup(hash, bs, k) <==> c == [] || c[0].1 == c[|c| - 1].1
  {
    hide Rehash, Lookup;
    LookupIsFirst(hash, bs, k);
    GrowthAnswersLast(hash, bs, into, k);
  }

  /** Two values under one key, the newer first, in any table of 53 buckets: growth to 97 buckets brings
      back the older one. */
  lemma GrowthExample(hash: nat -> nat, bs: seq<seq<(nat, int)>>)
    requires Placed(hash, bs) && |bs| == 53 && Of(bs[Bucket(hash, bs, 7)], 7) == [(7, 1), (7, 2)]
    ensures Lookup(hash, bs, 7) == Some(1)
    ensures Lookup(hash, Rehash(hash, bs, NoPairs(97)), 7) == Some(2)
  {
    hide Rehash, Lookup;
    LookupIsFirst(hash, bs, 7);
    GrowthAnswersLast(hash, bs, NoPairs(97), 7);
  }

  // ---------- The table as a finite map ----------

  /** The table holds exactly the items of m, each once and in its place. */
  ghost predicate Represents<K, V>(hash: K -> nat, bs: seq<seq<(K, V)>>, m: map<K, V>) {
    Placed(hash, bs) && multiset(Flat(bs)) == multiset(m.Items)
  }

  lemma InFlat<T>(bs: seq<seq<T>>, b: nat, i: nat)
    requires b < |bs| && i < |bs[b]|
    ensures bs[b][i] in Flat(bs)
  {
    FlatAround(bs, b);
    assert bs[b][i] in bs[b];
  }

  lemma {:induction false} FromFlat<T>(bs: seq<seq<T>>, x: T) returns (b: nat, i: nat)
    requires x in Flat(bs)
    ensures b < |bs| && i < |bs[b]| && bs[b][i] == x
  {
    if x in bs[0] {
      i :| 0 <= i < |bs[0]| && bs[0][i] == x;
      b := 0;
    } else {
      b, i := FromFlat(bs[1..], x);
      b := b + 1;
    }
  }

  /** Search equals finite-map lookup. */
  lemma LookupIsMap<K, V>(hash: K -> nat, bs: seq<seq<(K, V)>>, m: map<K, V>, k: K)
    requires Represents(hash, bs, m)
    ensures Lookup(hash, bs, k) == if k in m then Some(m[k]) else None
  {
    var n := Bucket(hash, bs, k);
    if k in m {
      assert (k, m[k]) in m.Items && (k, m[k]) in multiset(Flat(bs));
      var b, i := FromFlat(bs, (k, m[k]));
      assert b == n;
    }
    var f := Find(bs[n], k);
    if f.Some? {
      InFlat(bs, n, f.value);
      assert bs[n][f.value] in multiset(Flat(bs));
      assert bs[n][f.value] in m.Items;
    }
  }

  lemma ItemsSplit<K, V>(m: map<K, V>, k: K)
    requires k in m
    ensures m.Items == (m - {k}).Items + {(k, m[k])} && (k, m[k]) !in (m - {k}).Items
  {
    var r := m - {k};
    forall p | p in m.Items
      ensures p in r.Items + {(k, m[k])}
    {
      assert p.0 in m && m[p.0] == p.1;
      if p.0 != k {
        assert p.0 in r && r[p.0] == p.1;
        assert (p.0, p.1) in r.Items;
      }
    }
    forall p | p in r.Items
      ensures p in m.Items
    {
      assert p.0 in r && r[p.0] == p.1 && p.0 in m && m[p.0] == p.1;
      assert (p.0, p.1) in m.Items;
    }
    assert (k, m[k]) in m.Items;
  }

  lemma ItemsAdd<K, V>(m: map<K, V>, k: K, v: V)
    ensures m[k := v].Items == (m - {k}).Items + {(k, v)} && (k, v) !in (m - {k}).Items
  {
    ItemsSplit(m[k := v], k);
    assert m[k := v] - {k} == m - {k};
  }

  lemma SizeOfItems<K, V>(m: map<K, V>)
    ensures |m.Items| == |m|
    decreases |m|
  {
  }

  lemma CountIsSize<K, V>(hash: K -> nat, bs: seq<seq<(K, V)>>, m: map<K, V>)
    requires Represents(hash, bs, m)
    ensures |Flat(bs)| == |m|
  {
    SizeOfItems(m);
    assert |multiset(Flat(bs))| == |Flat(bs)|;
    assert |multiset(m.Items)| == |m.Items|;
  }

  lemma MultisetAdd<T>(s: set<T>, x: T)
    requires x !in s
    ensures multiset(s + {x}) == multiset(s) + multiset{x}
  {
  }

  lemma MultisetCancel<T>(a: multiset<T>, b: multiset<T>, x: T)
    requires a + multiset{x} == b + multiset{x}
    ensures a == b
  {
    assert a == (a + multiset{x}) - multiset{x};
    assert b == (b + multiset{x}) - multiset{x};
  }

  lemma PushedRepresents<K, V>(hash: K -> nat, bs: seq<seq<(K, V)>>, m: map<K, V>, k: K, v: V)
    requires Represents(hash, bs, m) && k !in m
    ensures Represents(hash, Pushed(hash, bs, (k, v)), m[k := v])
  {
    PushedKeeps(hash, bs, (k, v));
    ItemsAdd(m, k, v);
    assert m - {k} == m;
    MultisetAdd(m.Items, (k, v));
  }

  /** The pair at position i of bucket b unlinked. */
  function Removed<T>(bs: seq<seq<T>>, b: nat, i: nat): (r: seq<seq<T>>)
    requires b < |bs| && i < |bs[b]|
    ensures |r| == |bs|
  {
    bs[b := Without(bs[b], i)]
  }

  lemma RemovedKeeps<K, V>(hash: K -> nat, bs: seq<seq<(K, V)>>, b: nat, i: nat)
    requires Placed(hash, bs) && b < |bs| && i < |bs[b]|
    ensures Placed(hash, Removed(bs, b, i))
    ensures multiset(Flat(bs)) == multiset(Flat(Removed(bs, b, i))) + multiset{bs[b][i]}
    ensures |Flat(Removed(bs, b, i))| == |Flat(bs)| - 1
  {
    FlatAround(bs, b);
    FlatReplace(bs, b, Without(bs[b], i));
    assert bs[b] == bs[b][..i] + [bs[b][i]] + bs[b][i + 1..];
    var r: seq<seq<(K, V)>> := Removed(bs, b, i);
    forall c, j | 0 <= c < |r| && 0 <= j < |r[c]|
      ensures hash(r[c][j].0) % |r| == c
    {
      if c == b && j >= i {
        assert r[c][j] == bs[c][j + 1];
      }
    }
  }

  lemma RemovedRepresents<K, V>(hash: K -> nat, bs: seq<seq<(K, V)>>, m: map<K, V>, b: nat, i: nat)
    requires Represents(hash, bs, m) && b < |bs| && i < |bs[b]|
    ensures Represents(hash, Removed(bs, b, i), m - {bs[b][i].0})
  {
    var (k, v) := bs[b][i];
    InFlat(bs, b, i);
    assert (k, v) in multiset(Flat(bs));
    assert (k, v) in m.Items;
    RemovedKeeps(hash, bs, b, i);
    ItemsSplit(m, k);
    MultisetAdd((m - {k}).Items, (k, v));
    MultisetCancel(multiset(Flat(Removed(bs, b, i))), multiset((m - {k}).Items), (k, v));
  }

  /** The value at position i of bucket b replaced. */
  function Changed<K, V>(bs: seq<seq<(K, V)>>, b: nat, i: nat, v: V): (r: seq<seq<(K, V)>>)
    requires b < |bs| && i < |bs[b]|
    ensures |r| == |bs|
  {
    bs[b := bs[b][i := (bs[b][i].0, v)]]
  }

  lemma ChangedCount<K, V>(bs: seq<seq<(K, V)>>, b: nat, i: nat, v: V)
    requires b < |bs| && i < |bs[b]|
    ensures |Flat(Changed(bs, b, i, v))| == |Flat(bs)|
  {
    FlatAround(bs, b);
    FlatReplace(bs, b, Changed(bs, b, i, v)[b]);
  }

  lemma ChangedPlaced<K, V>(hash: K -> nat, bs: seq<seq<(K, V)>>, b: nat, i: nat, v: V)
    requires Placed(hash, bs) && b < |bs| && i < |bs[b]|
    ensures Placed(hash, Changed(bs, b, i, v)) && Removed(Changed(bs, b, i, v), b, i) == Removed(bs, b, i)
  {
  }

  lemma ChangedRepresents<K, V>(hash: K -> nat, bs: seq<seq<(K, V)>>, m: map<K, V>, b: nat, i: nat, v: V)
    requires Represents(hash, bs, m) && b < |bs| && i < |bs[b]|
    ensures Represents(hash, Changed(bs, b, i, v), m[bs[b][i].0 := v])
  {
    var k := bs[b][i].0;
    RemovedRepresents(hash, bs, m, b, i);
    ChangedPlaced(hash, bs, b, i, v);
    RemovedKeeps(hash, Changed(bs, b, i, v), b, i);
    ItemsAdd(m, k, v);
    MultisetAdd((m - {k}).Items, (k, v));
  }

  lemma GrownCount<K, V>(hash: K -> nat, bs: seq<seq<(K, V)>>, into: seq<seq<(K, V)>>)
    requires Placed(hash, bs) && Empty(into)
    ensures Placed(hash, Rehash(hash, bs, into)) && |Flat(Rehash(hash, bs, into))| == |Flat(bs)|
  {
    FlatEmpty(into);
    RehashIsPushAll(hash, bs, into);
    PushAllKeeps(hash, Flat(bs), into);
  }

  lemma GrownRepresents<K, V>(hash: K -> nat, bs: seq<seq<(K, V)>>, into: seq<seq<(K, V)>>, m: map<K, V>)
    requires Represents(hash, bs, m) && Empty(into)
    ensures Represents(hash, Rehash(hash, bs, into), m)
  {
    FlatEmpty(into);
    RehashIsPushAll(hash, bs, into);
    PushAllKeeps(hash, Flat(bs), into);
  }

  lemma {:induction false} FlatEmpty<T>(bs: seq<seq<T>>)
    requires forall b :: 0 <= b < |bs| ==> bs[b] == []
    ensures Flat(bs) == []
  {
    if bs != [] {
      FlatEmpty(bs[1..]);
    }
  }
}
