/** The chained hash table on linked entries: insertion with growth, search, removal and change. */
module HashTable {
  import opened Common
  import opened HashModel

  const PRIMES: seq<nat> := [53, 97, 193, 389, 769, 1543, 3079, 6151, 12289, 24593, 49157, 98317, 196613, 393241,
                             786433, 1572869, 3145739, 6291469, 12582917, 25165843, 50331653, 100663319, 201326611,
                             402653189, 805306457, 1610612741]

  /** Every listed size is larger than the one before; the first is 53 and the last 1610612741. */
  lemma PrimesIncrease()
    ensures |PRIMES| == 26 && PRIMES[0] == 53 && PRIMES[25] == 1610612741
    ensures forall i, j :: 0 <= i < j < |PRIMES| ==> PRIMES[i] < PRIMES[j]
  {
    assert forall i :: 0 <= i < 25 ==> PRIMES[i] < PRIMES[i + 1];
    forall i, j | 0 <= i < j < |PRIMES|
      ensures PRIMES[i] < PRIMES[j]
    {
      Ascending(PRIMES, i, j);
    }
  }

  lemma {:induction false} Ascending(s: seq<nat>, i: nat, j: nat)
    requires i < j < |s| && forall k :: 0 <= k < |s| - 1 ==> s[k] < s[k + 1]
    ensures s[i] < s[j]
    decreases j
  {
    assert s[j - 1] < s[j - 1 + 1];
    if i < j - 1 {
      Ascending(s, i, j - 1);
    }
  }

  class Entry<K, V> {
    const h: nat
    const k: K
    var v: V
    var next: Entry?<K, V>

    constructor (h: nat, k: K, v: V, next: Entry?<K, V>)
      ensures this.h == h && this.k == k && this.v == v && this.next == next
    {
      this.h, this.k, this.v, this.next := h, k, v, next;
    }
  }

  /** The i-th entry of a chain, NULL past its end. */
  function At<K, V>(c: seq<Entry<K, V>>, i: nat): Entry?<K, V> {
    if i < |c| then c[i] else null
  }

  /** The chain c hangs off `head`, one `next` link at a time, and holds the pairs p. */
  ghost predicate Hangs<K, V>(head: Entry?<K, V>, c: seq<Entry<K, V>>, p: seq<(K, V)>)
    reads c
  {
    && head == At(c, 0) && |c| == |p|
    && forall i :: 0 <= i < |c| ==> c[i].next == At(c, i + 1) && c[i].k == p[i].0 && c[i].v == p[i].1
  }

  /** The entries of bucket b of n are hashed there, are all different, and belong to `nodes`. */
  ghost predicate Homed<K, V>(hash: K -> nat, c: seq<Entry<K, V>>, b: nat, n: nat, nodes: set<Entry<K, V>>) {
    && n > 0
    && (forall i :: 0 <= i < |c| ==> c[i] in nodes && c[i].h == hash(c[i].k) && c[i].h % n == b)
    && forall i, j :: 0 <= i < j < |c| ==> c[i] != c[j]
  }

  ghost predicate Homes<K, V>(hash: K -> nat, cs: seq<seq<Entry<K, V>>>, nodes: set<Entry<K, V>>) {
    forall b :: 0 <= b < |cs| ==> Homed(hash, cs[b], b, |cs|, nodes)
  }

  /** Entries of different buckets are different objects. */
  lemma OtherBucket<K, V>(hash: K -> nat, cs: seq<seq<Entry<K, V>>>, nodes: set<Entry<K, V>>, b: nat, i: nat)
    requires Homes(hash, cs, nodes) && b < |cs| && i < |cs[b]|
    ensures forall b' :: 0 <= b' < |cs| && b' != b ==> cs[b][i] !in cs[b']
  {
  }

  /** The entries of one chain are owned and all different. */
  lemma ChainMembers<K, V>(hash: K -> nat, cs: seq<seq<Entry<K, V>>>, nodes: set<Entry<K, V>>, b: nat)
    requires Homes(hash, cs, nodes) && b < |cs|
    ensures forall i :: 0 <= i < |cs[b]| ==> cs[b][i] in nodes
    ensures forall i, j :: 0 <= i < j < |cs[b]| ==> cs[b][i] != cs[b][j]
  {
  }

  lemma HomesWithout<K, V>(hash: K -> nat, cs: seq<seq<Entry<K, V>>>, nodes: set<Entry<K, V>>, b: nat, i: nat)
    requires Homes(hash, cs, nodes) && b < |cs| && i < |cs[b]|
    ensures Homes(hash, Removed(cs, b, i), nodes)
  {
  }

  /** Every bucket's chain hangs off its table slot. */
  ghost predicate AllHang<K, V>(t: array<Entry?<K, V>>, cs: seq<seq<Entry<K, V>>>, ps: seq<seq<(K, V)>>,
                                nodes: set<Entry<K, V>>)
    reads t, nodes
  {
    && |cs| == |ps| == t.Length
    && Owned(cs, nodes)
    && forall b :: 0 <= b < |cs| ==> Hangs(t[b], cs[b], ps[b])
  }

  ghost predicate Owned<K, V>(cs: seq<seq<Entry<K, V>>>, nodes: set<Entry<K, V>>) {
    forall b, e :: 0 <= b < |cs| && e in cs[b] ==> e in nodes
  }

  lemma OwnedWithout<K, V>(cs: seq<seq<Entry<K, V>>>, nodes: set<Entry<K, V>>, b: nat, i: nat)
    requires Owned(cs, nodes) && b < |cs| && i < |cs[b]|
    ensures Owned(Removed(cs, b, i), nodes)
  {
  }

  /** Makes the link before position i of bucket b skip to position i + 1. */
  method Bypass<K, V>(t: array<Entry?<K, V>>, b: nat, parent: Entry?<K, V>, e: Entry<K, V>, ghost i: nat,
                      ghost cs: seq<seq<Entry<K, V>>>, ghost ps: seq<seq<(K, V)>>, ghost nodes: set<Entry<K, V>>)
    requires AllHang(t, cs, ps, nodes) && b < |cs| && i < |cs[b]|
    requires e == cs[b][i] && parent == if i == 0 then null else cs[b][i - 1]
    requires forall j, k :: 0 <= j < k < |cs[b]| ==> cs[b][j] != cs[b][k]
    requires i > 0 ==> forall b' :: 0 <= b' < |cs| && b' != b ==> cs[b][i - 1] !in cs[b']
    modifies t, nodes
    ensures AllHang(t, Removed(cs, b, i), Removed(ps, b, i), nodes)
    ensures forall n :: n in nodes && n != parent ==> n.next == old(n.next)
    ensures forall n :: n in nodes ==> n.v == old(n.v)
  {
    ghost var c, p := cs[b], ps[b];
    assert Hangs(t[b], c, p);
    assert e in c && (i > 0 ==> c[i - 1] in c);
    if parent == null {
      t[b] := e.next;
    } else {
      parent.next := e.next;
    }
    Splice(t[b], c, p, i);
    OwnedWithout(cs, nodes, b, i);
    ghost var cs', ps' := Removed(cs, b, i), Removed(ps, b, i);
    forall b' | 0 <= b' < |cs|
      ensures Hangs(t[b'], cs'[b'], ps'[b'])
    {
      if b' != b {
        assert old(Hangs(t[b'], cs[b'], ps[b']));
      }
    }
  }

  method Overwrite<K, V>(t: array<Entry?<K, V>>, b: nat, e: Entry<K, V>, v: V, ghost i: nat,
                         ghost cs: seq<seq<Entry<K, V>>>, ghost ps: seq<seq<(K, V)>>, ghost nodes: set<Entry<K, V>>)
    requires AllHang(t, cs, ps, nodes) && b < |cs| && i < |cs[b]| && e == cs[b][i]
    requires forall j, k :: 0 <= j < k < |cs[b]| ==> cs[b][j] != cs[b][k]
    requires forall b' :: 0 <= b' < |cs| && b' != b ==> e !in cs[b']
    modifies nodes
    ensures AllHang(t, cs, Changed(ps, b, i, v), nodes)
  {
    e.v := v;
    forall b' | 0 <= b' < |cs|
      ensures Hangs(t[b'], cs[b'], Changed(ps, b, i, v)[b'])
    {
      assert old(Hangs(t[b'], cs[b'], ps[b']));
    }
  }

  /** Makes e, whose next is bucket b's head, the new head. */
  method Link<K, V>(t: array<Entry?<K, V>>, b: nat, e: Entry<K, V>,
                    ghost cs: seq<seq<Entry<K, V>>>, ghost ps: seq<seq<(K, V)>>, ghost nodes: set<Entry<K, V>>)
    requires AllHang(t, cs, ps, nodes) && b < |cs| && e !in nodes && e.next == t[b]
    modifies t
    ensures AllHang(t, cs[b := [e] + cs[b]], ps[b := [(e.k, e.v)] + ps[b]], nodes + {e})
  {
    ghost var cs', ps' := cs[b := [e] + cs[b]], ps[b := [(e.k, e.v)] + ps[b]];
    assert Hangs(t[b], cs[b], ps[b]);
    t[b] := e;
    assert Owned(cs', nodes + {e}) by {
      forall b', n | 0 <= b' < |cs'| && n in cs'[b']
        ensures n in nodes + {e}
      {
        assert n == e || n in cs[b'];
      }
    }
    forall b' | 0 <= b' < |cs|
      ensures Hangs(t[b'], cs'[b'], ps'[b'])
    {
      assert old(Hangs(t[b'], cs[b'], ps[b']));
      assert b' == b ==> forall i :: 0 < i < |cs'[b]| ==> cs'[b][i] == cs[b][i - 1];
    }
  }

  lemma HomesPushed<K, V>(hash: K -> nat, cs: seq<seq<Entry<K, V>>>, nodes: set<Entry<K, V>>, b: nat, e: Entry<K, V>)
    requires Homes(hash, cs, nodes) && b < |cs| && e !in nodes && e.h == hash(e.k) && e.h % |cs| == b
    ensures Homes(hash, cs[b := [e] + cs[b]], nodes + {e})
  {
  }

  lemma HomesPopped<K, V>(hash: K -> nat, cs: seq<seq<Entry<K, V>>>, nodes: set<Entry<K, V>>, b: nat)
    requires Homes(hash, cs, nodes) && b < |cs| && cs[b] != []
    ensures Homes(hash, cs[b := cs[b][1..]], nodes - {cs[b][0]})
    ensures cs[b][0] in nodes && cs[b][0] !in cs[b][1..] && cs[b][0].h == hash(cs[b][0].k)
    ensures forall b' :: 0 <= b' < |cs| && b' != b ==> cs[b][0] !in cs[b']
  {
  }

  /** Takes the head off bucket b. */
  method Pop<K, V>(t: array<Entry?<K, V>>, b: nat, ghost cs: seq<seq<Entry<K, V>>>, ghost ps: seq<seq<(K, V)>>,
                   ghost nodes: set<Entry<K, V>>) returns (e: Entry<K, V>)
    requires AllHang(t, cs, ps, nodes) && b < |cs| && t[b] != null
    requires cs[b] != [] ==> cs[b][0] !in cs[b][1..]
    requires forall b' :: 0 <= b' < |cs| && b' != b && cs[b] != [] ==> cs[b][0] !in cs[b']
    modifies t
    ensures |cs[b]| == |ps[b]| > 0 && e == cs[b][0] && (e.k, e.v) == ps[b][0]
    ensures AllHang(t, cs[b := cs[b][1..]], ps[b := ps[b][1..]], nodes - {e})
  {
    assert Hangs(t[b], cs[b], ps[b]);
    e := t[b];
    t[b] := e.next;
    ghost var cs', ps' := cs[b := cs[b][1..]], ps[b := ps[b][1..]];
    assert Owned(cs', nodes - {e}) by {
      forall b', n | 0 <= b' < |cs'| && n in cs'[b']
        ensures n in nodes - {e}
      {
        assert n in cs[b'];
      }
    }
    forall b' | 0 <= b' < |cs|
      ensures Hangs(t[b'], cs'[b'], ps'[b'])
    {
      assert old(Hangs(t[b'], cs[b'], ps[b']));
      assert b' == b ==> forall i :: 0 <= i < |cs'[b]| ==> cs'[b][i] == cs[b][i + 1] && ps'[b][i] == ps[b][i + 1];
    }
  }

  /** Moves all entries of bucket b of t to the heads of their buckets in t'. */
  method Drain<K, V>(t: array<Entry?<K, V>>, b: nat, t': array<Entry?<K, V>>, ghost hash: K -> nat,
                     ghost cs: seq<seq<Entry<K, V>>>, ghost ps: seq<seq<(K, V)>>, ghost left: set<Entry<K, V>>,
                     ghost ds: seq<seq<Entry<K, V>>>, ghost qs: seq<seq<(K, V)>>, ghost right: set<Entry<K, V>>)
    returns (ghost left': set<Entry<K, V>>, ghost ds': seq<seq<Entry<K, V>>>, ghost qs': seq<seq<(K, V)>>,
             ghost right': set<Entry<K, V>>)
    requires t != t' && t'.Length > 0 && left !! right && b < |cs|
    requires AllHang(t, cs, ps, left) && Homes(hash, cs, left)
    requires AllHang(t', ds, qs, right) && Homes(hash, ds, right)
    modifies t, t', left
    ensures left' !! right' && left' + right' == left + right && left' <= left
    ensures AllHang(t, cs[b := []], ps[b := []], left') && Homes(hash, cs[b := []], left')
    ensures AllHang(t', ds', qs', right') && Homes(hash, ds', right')
    ensures qs' == PushAll(hash, ps[b], qs) && |ds'| == |qs'| == |qs|
  {
    hide Homes, Hangs, Homed, Owned;
    left', ds', qs', right' := left, ds, qs, right;
    ghost var c, p := cs[b], ps[b];
    assert cs[b := c] == cs && ps[b := p] == ps;
    while t[b] != null
      invariant left' !! right' && left' + right' == left + right && left' <= left
      invariant AllHang(t, cs[b := c], ps[b := p], left') && Homes(hash, cs[b := c], left')
      invariant AllHang(t', ds', qs', right') && Homes(hash, ds', right')
      invariant PushAll(hash, p, qs') == PushAll(hash, ps[b], qs) && |ds'| == |qs'| == |qs|
      decreases |c|
    {
      HeadOf(t, b, cs[b := c], ps[b := p], left');
      HomesPopped(hash, cs[b := c], left', b);
      var e := Pop(t, b, cs[b := c], ps[b := p], left');
      assert cs[b := c][b := c[1..]] == cs[b := c[1..]] && ps[b := p][b := p[1..]] == ps[b := p[1..]];
      left', c, p := left' - {e}, c[1..], p[1..];
      var index := e.h % t'.Length;
      e.next := t'[index];
      HomesPushed(hash, ds', right', index, e);
      Link(t', index, e, ds', qs', right');
      ds', qs', right' := ds'[index := [e] + ds'[index]], qs'[index := [(e.k, e.v)] + qs'[index]], right' + {e};
    }
    HeadOf(t, b, cs[b := c], ps[b := p], left');
    assert cs[b := c] == cs[b := []] && ps[b := p] == ps[b := []];
  }

  /** Moves all entries of t, bucket after bucket, into the empty table t'. */
  method DrainAll<K, V>(t: array<Entry?<K, V>>, t': array<Entry?<K, V>>, ghost hash: K -> nat,
                        ghost cs0: seq<seq<Entry<K, V>>>, ghost ps0: seq<seq<(K, V)>>, ghost nodes: set<Entry<K, V>>,
                        ghost empty: seq<seq<(K, V)>>)
    returns (ghost ds: seq<seq<Entry<K, V>>>, ghost qs: seq<seq<(K, V)>>)
    requires t != t' && t'.Length == |empty| > 0 && Empty(empty)
    requires AllHang(t, cs0, ps0, nodes) && |cs0| == |ps0| == t.Length && Homes(hash, cs0, nodes)
    requires forall i :: 0 <= i < t'.Length ==> t'[i] == null
    modifies t, t', nodes
    ensures AllHang(t', ds, qs, nodes) && Homes(hash, ds, nodes)
    ensures qs == Rehash(hash, ps0, empty) && |ds| == |qs| == t'.Length
  {
    hide Homes, AllHang, Rehash, PushAll, Empty;
    ghost var cs, ps, left, right: set<Entry<K, V>> := cs0, ps0, nodes, {};
    ds, qs := NoPairs(t'.Length), empty;
    EmptyForest(t', hash, ds, qs);
    assert ps0[0..] == ps0;
    for i := 0 to t.Length
      invariant |cs| == |ps| == t.Length && |ds| == |qs| == t'.Length
      invariant left !! right && left + right == nodes
      invariant AllHang(t, cs, ps, left) && Homes(hash, cs, left)
      invariant AllHang(t', ds, qs, right) && Homes(hash, ds, right)
      invariant forall j :: i <= j < |ps| ==> ps[j] == ps0[j]
      invariant Rehash(hash, ps0[i..], qs) == Rehash(hash, ps0, empty)
    {
      RehashStep(hash, ps0, i, qs);
      left, ds, qs, right := Drain(t, i, t', hash, cs, ps, left, ds, qs, right);
      cs, ps := cs[i := []], ps[i := []];
    }
    RehashNone(hash, ps0, qs);
    MoreNodes(t', hash, ds, qs, right, nodes);
  }

  lemma IsEmpty<T>(bs: seq<seq<T>>)
    requires |bs| > 0 && forall b :: 0 <= b < |bs| ==> bs[b] == []
    ensures Empty(bs)
  {
  }

  lemma HeadOf<K, V>(t: array<Entry?<K, V>>, b: nat, cs: seq<seq<Entry<K, V>>>, ps: seq<seq<(K, V)>>,
                     nodes: set<Entry<K, V>>)
    requires AllHang(t, cs, ps, nodes) && b < |cs|
    ensures |cs[b]| == |ps[b]| && (t[b] == null <==> cs[b] == [])
  {
  }

  class Table<K(==), V> {
    const hash: K -> nat            // enhanced_hash of the key
    const limitOf: nat -> nat       // the load limit for a table length
    var table: array<Entry?<K, V>>
    var primeindex: nat
    var entrycount: nat
    var loadlimit: nat
    ghost var chains: seq<seq<Entry<K, V>>>
    ghost var pairs: seq<seq<(K, V)>>
    ghost var nodes: set<Entry<K, V>>

    ghost predicate Valid()
      reads this, table, nodes
    {
      && |chains| == |pairs| == table.Length > 0
      && Homes(hash, chains, nodes)
      && AllHang(table, chains, pairs, nodes)
      && entrycount == |Flat(pairs)|
      && primeindex < |PRIMES| && table.Length == PRIMES[primeindex]
    }

    /** Creates a table of the first listed prime above minsize; minsize is at most 2^30. */
    constructor (minsize: nat, hash: K -> nat, limitOf: nat -> nat)
      requires minsize <= 0x4000_0000
      ensures Valid() && fresh(table) && nodes == {} && this.hash == hash
      ensures table.Length > minsize && Empty(pairs)
      ensures forall i :: 0 <= i < primeindex ==> PRIMES[i] <= minsize
    {
      var pindex := 0;
      while PRIMES[pindex] <= minsize
        invariant pindex < |PRIMES|
        invariant forall i :: 0 <= i < pindex ==> PRIMES[i] <= minsize
        decreases |PRIMES| - pindex
      {
        pindex := pindex + 1;
      }
      var size := PRIMES[pindex];
      this.hash, this.limitOf := hash, limitOf;
      table := new Entry?<K, V>[size](_ => null);
      primeindex, entrycount, loadlimit := pindex, 0, limitOf(size);
      chains, pairs := NoPairs(size), NoPairs(size);
      nodes := {};
      new;
      FlatEmpty(pairs);
    }

    lemma PairsPlaced()
      requires Valid()
      ensures Placed(hash, pairs)
    {
    }

    lemma SameLengths()
      requires Valid()
      ensures forall b :: 0 <= b < |chains| ==> |chains[b]| == |pairs[b]|
    {
    }

    lemma InBucket(b: nat)
      requires Valid() && b < |chains|
      ensures Hangs(table[b], chains[b], pairs[b])
      ensures forall i :: 0 <= i < |chains[b]| ==> chains[b][i].h == hash(chains[b][i].k)
    {
    }

    lemma Head(b: nat)
      requires Valid() && b < |chains|
      ensures table[b] == At(chains[b], 0) && |chains[b]| == |pairs[b]|
    {
    }

    lemma NextIn(b: nat, i: nat)
      requires Valid() && b < |chains| && i < |chains[b]|
      ensures chains[b][i].next == At(chains[b], i + 1) && |chains[b]| == |pairs[b]|
      ensures pairs[b][i] == (chains[b][i].k, chains[b][i].v)
    {
    }

    method Search(k: K) returns (r: Option<V>)
      requires Valid()
      ensures r == Lookup(hash, pairs, k)
    {
      hide Homes, AllHang, Homed;
      var hashvalue := hash(k);
      var index := hashvalue % table.Length;
      var e := table[index];
      ghost var c, p := chains[index], pairs[index];
      InBucket(index);
      ghost var i := 0;
      while e != null
        invariant i <= |c| && e == At(c, i)
        invariant forall j :: 0 <= j < i ==> p[j].0 != k
        decreases |c| - i
      {
        if hashvalue == e.h && k == e.k {
          return Some(e.v);
        }
        e := e.next;
        i := i + 1;
      }
      return None;
    }

    /** The walk of remove, change and itr_search: the first entry for k, with its predecessor. */
    method Locate(k: K) returns (index: nat, parent: Entry?<K, V>, e: Entry?<K, V>, ghost i: nat)
      requires Valid()
      ensures index == Bucket(hash, pairs, k) && i <= |chains[index]|
      ensures e == At(chains[index], i) && parent == if i == 0 then null else chains[index][i - 1]
      ensures if e == null then Find(pairs[index], k) == None else Find(pairs[index], k) == Some(i)
    {
      hide Homes, AllHang, Homed;
      var hashvalue := hash(k);
      index := hashvalue % table.Length;
      e, parent, i := table[index], null, 0;
      ghost var c, p := chains[index], pairs[index];
      InBucket(index);
      while e != null
        invariant i <= |c| && e == At(c, i) && parent == if i == 0 then null else c[i - 1]
        invariant forall j :: 0 <= j < i ==> p[j].0 != k
        decreases |c| - i
      {
        if hashvalue == e.h && k == e.k {
          return;
        }
        parent, e, i := e, e.next, i + 1;
      }
    }

    method Change(k: K, v: V) returns (found: bool)
      requires Valid()
      modifies nodes, this`pairs
      ensures Valid()
      ensures var f := Find(old(pairs)[Bucket(hash, old(pairs), k)], k);
              && found == f.Some?
              && pairs == if f.Some? then Changed(old(pairs), Bucket(hash, old(pairs), k), f.value, v) else old(pairs)
    {
      hide Homes, AllHang, Flat, Changed;
      var index, parent, e;
      ghost var i;
      index, parent, e, i := Locate(k);
      if e == null {
        return false;
      }
      SameLengths();
      ChangedCount(pairs, index, i, v);
      ChainMembers(hash, chains, nodes, index);
      OtherBucket(hash, chains, nodes, index, i);
      Overwrite(table, index, e, v, i, chains, pairs, nodes);
      pairs := Changed(pairs, index, i, v);
      return true;
    }

    /** Unlinks the entry at position i of bucket `index`, whose predecessor is `parent`. */
    method Unlink(index: nat, parent: Entry?<K, V>, e: Entry<K, V>, ghost i: nat)
      requires Valid() && index < |chains| && i < |chains[index]|
      requires e == chains[index][i] && parent == if i == 0 then null else chains[index][i - 1]
      modifies table, nodes, this`entrycount, this`pairs, this`chains
      ensures Valid() && pairs == Removed(old(pairs), index, i) && chains == Removed(old(chains), index, i)
      ensures forall n :: n in nodes && n != parent ==> n.next == old(n.next)
    {
      hide Homes, Placed, AllHang, Flat, Removed;
      PairsPlaced();
      SameLengths();
      RemovedKeeps(hash, pairs, index, i);
      HomesWithout(hash, chains, nodes, index, i);
      ChainMembers(hash, chains, nodes, index);
      if i > 0 {
        OtherBucket(hash, chains, nodes, index, i - 1);
      }
      Bypass(table, index, parent, e, i, chains, pairs, nodes);
      entrycount := entrycount - 1;
      pairs, chains := Removed(pairs, index, i), Removed(chains, index, i);
    }

    method Remove(k: K)
      requires Valid()
      modifies table, nodes, this`entrycount, this`pairs, this`chains
      ensures Valid()
      ensures var b := Bucket(hash, old(pairs), k);
              var f := Find(old(pairs)[b], k);
              pairs == if f.Some? then Removed(old(pairs), b, f.value) else old(pairs)
    {
      var index, parent, e;
      ghost var i;
      index, parent, e, i := Locate(k);
      if e != null {
        Unlink(index, parent, e, i);
      }
    }

    /** Moves every entry to the next larger table; false when there is none. */
    method Expand() returns (grown: bool)
      requires Valid()
      modifies this, table, nodes
      ensures Valid() && nodes == old(nodes) && (table == old(table) || fresh(table))
      ensures grown == (old(primeindex) != |PRIMES| - 1)
      ensures if grown then table.Length == PRIMES[old(primeindex) + 1] &&
                            pairs == Rehash(hash, old(pairs), NoPairs(table.Length))
              else pairs == old(pairs) && chains == old(chains) && table == old(table)
      ensures grown ==> table.Length > old(table.Length)
    {
      hide Homes, AllHang, Rehash, Flat, NoPairs;
      grown := primeindex != |PRIMES| - 1;
      if grown {
        PrimesIncrease();
        Grow();
      }
    }

    method Grow()
      requires Valid() && primeindex < |PRIMES| - 1
      modifies this, table, nodes
      ensures Valid() && nodes == old(nodes) && fresh(table)
      ensures table.Length == PRIMES[old(primeindex) + 1] && pairs == Rehash(hash, old(pairs), NoPairs(table.Length))
    {
      hide Homes, AllHang, Rehash, Flat, Placed, Empty, NoPairs;
      PairsPlaced();
      primeindex := primeindex + 1;
      var newsize := PRIMES[primeindex];
      var newtable := new Entry?<K, V>[newsize](_ => null);
      ghost var empty: seq<seq<(K, V)>> := NoPairs(newsize);
      IsEmpty(empty);
      GrownCount(hash, pairs, empty);
      chains, pairs := DrainAll(table, newtable, hash, chains, pairs, nodes, empty);
      table, loadlimit := newtable, limitOf(newsize);
    }

    /** Adds a pair at the head of its chain, after growing a full table. */
    method Insert(k: K, v: V)
      requires Valid()
      modifies this, table, nodes
      ensures Valid() && fresh(nodes - old(nodes)) && (table == old(table) || fresh(table))
      ensures var was := if old(entrycount + 1 > loadlimit && primeindex != |PRIMES| - 1)
                         then Rehash(hash, old(pairs), NoPairs(PRIMES[old(primeindex) + 1])) else old(pairs);
              pairs == Pushed(hash, was, (k, v))
    {
      hide Homes, AllHang, Rehash, Flat, Placed, Pushed;
      if entrycount + 1 > loadlimit {
        var _ := Expand();
      }
      InsertHead(k, v);
    }

    method InsertHead(k: K, v: V)
      requires Valid()
      modifies this, table
      ensures Valid() && fresh(nodes - old(nodes)) && table == old(table) && pairs == Pushed(hash, old(pairs), (k, v))
    {
      hide Homes, AllHang, Flat, Placed;
      PairsPlaced();
      PushedKeeps(hash, pairs, (k, v));
      var h := hash(k);
      var index := h % table.Length;
      var e := new Entry(h, k, v, table[index]);
      Link(table, index, e, chains, pairs, nodes);
      HomesPushed(hash, chains, nodes, index, e);
      entrycount := entrycount + 1;
      pairs := Pushed(hash, pairs, (k, v));
      chains, nodes := chains[index := [e] + chains[index]], nodes + {e};
    }
  }

  /** arg_hashtable_create: refuses sizes over 2^30. */
  method Create<K(==), V>(minsize: nat, hash: K -> nat, limitOf: nat -> nat) returns (h: Table?<K, V>)
    ensures h == null <==> minsize > 0x4000_0000
    ensures h != null ==>
      fresh(h) && h.Valid() && h.hash == hash && h.nodes == {} && Empty(h.pairs) && h.table.Length > minsize
  {
    hide Table.Valid;
    if minsize > 0x4000_0000 {
      return null;
    }
    h := new Table(minsize, hash, limitOf);
  }

  lemma EmptyForest<K, V>(t: array<Entry?<K, V>>, hash: K -> nat, cs: seq<seq<Entry<K, V>>>, ps: seq<seq<(K, V)>>)
    requires |cs| == |ps| == t.Length > 0 && Empty(ps)
    requires forall i :: 0 <= i < t.Length ==> t[i] == null && cs[i] == []
    ensures AllHang(t, cs, ps, {}) && Homes(hash, cs, {})
  {
  }

  lemma MoreNodes<K, V>(t: array<Entry?<K, V>>, hash: K -> nat, cs: seq<seq<Entry<K, V>>>, ps: seq<seq<(K, V)>>,
                        some: set<Entry<K, V>>, all: set<Entry<K, V>>)
    requires AllHang(t, cs, ps, some) && Homes(hash, cs, some) && some <= all
    ensures AllHang(t, cs, ps, all) && Homes(hash, cs, all)
  {
  }

  lemma RehashStep<K, V>(hash: K -> nat, ps: seq<seq<(K, V)>>, i: nat, qs: seq<seq<(K, V)>>)
    requires i < |ps| && |qs| > 0
    ensures Rehash(hash, ps[i..], qs) == Rehash(hash, ps[i + 1..], PushAll(hash, ps[i], qs))
  {
  }

  lemma RehashNone<K, V>(hash: K -> nat, ps: seq<seq<(K, V)>>, qs: seq<seq<(K, V)>>)
    requires |qs| > 0
    ensures Rehash(hash, ps[|ps|..], qs) == qs
  {
  }

  /** A chain whose i-th entry is bypassed is the chain without that entry. */
  lemma Splice<K, V>(head: Entry?<K, V>, c: seq<Entry<K, V>>, p: seq<(K, V)>, i: nat)
    requires i < |c| == |p|
    requires head == At(c, if i == 0 then 1 else 0)
    requires forall j :: 0 <= j < |c| ==> c[j].k == p[j].0 && c[j].v == p[j].1
    requires forall j :: 0 <= j < |c| ==> c[j].next == At(c, if j + 1 == i then i + 1 else j + 1)
    ensures Hangs(head, Without(c, i), Without(p, i))
  {
    var d := Without(c, i);
    forall j | 0 <= j < |d|
      ensures d[j].next == At(d, j + 1) && d[j].k == Without(p, i)[j].0 && d[j].v == Without(p, i)[j].1
    {
      assert d[j] == if j < i then c[j] else c[j + 1];
      assert j + 1 < |d| ==> d[j + 1] == if j + 1 < i then c[j + 1] else c[j + 2];
    }
  }
}
