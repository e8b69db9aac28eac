/** The hash-table iterator: advancing, and removing the current entry while iterating. */
module HashIterator {
  import opened HashModel
  import opened HashTable

  /** What lies before position (b, i) in table order, and what lies from there on. */
  function Behind<T>(bs: seq<seq<T>>, b: nat, i: nat): seq<T>
    requires b <= |bs| && i <= (if b < |bs| then |bs[b]| else 0)
  {
    Flat(bs[..b]) + (if b < |bs| then bs[b][..i] else [])
  }

  function Beyond<T>(bs: seq<seq<T>>, b: nat, i: nat): seq<T>
    requires b <= |bs| && i <= (if b < |bs| then |bs[b]| else 0)
  {
    if b < |bs| then bs[b][i..] + Flat(bs[b + 1..]) else []
  }

  lemma BehindBeyond<T>(bs: seq<seq<T>>, b: nat, i: nat)
    requires b <= |bs| && i <= (if b < |bs| then |bs[b]| else 0)
    ensures Behind(bs, b, i) + Beyond(bs, b, i) == Flat(bs)
  {
    if b < |bs| {
      FlatAround(bs, b);
      assert bs[b] == bs[b][..i] + bs[b][i..];
    } else {
      assert bs[..b] == bs;
    }
  }

  lemma BehindNothing<T>(bs: seq<seq<T>>, b: nat)
    requires b <= |bs| && forall k :: 0 <= k < b ==> bs[k] == []
    ensures Behind(bs, b, 0) == [] && Beyond(bs, b, 0) == Flat(bs)
  {
    FlatEmpty(bs[..b]);
    BehindBeyond(bs, b, 0);
  }

  lemma BehindAll<T>(bs: seq<seq<T>>)
    ensures Behind(bs, |bs|, 0) == Flat(bs) && Beyond(bs, |bs|, 0) == []
  {
    BehindBeyond(bs, |bs|, 0);
  }

  /** The next entry of the same chain. */
  lemma StepInside<T>(bs: seq<seq<T>>, b: nat, i: nat)
    requires b < |bs| && i < |bs[b]|
    ensures Behind(bs, b, i + 1) == Behind(bs, b, i) + [bs[b][i]]
    ensures Beyond(bs, b, i) == [bs[b][i]] + Beyond(bs, b, i + 1)
  {
    assert bs[b][..i + 1] == bs[b][..i] + [bs[b][i]];
    assert bs[b][i..] == [bs[b][i]] + bs[b][i + 1..];
  }

  /** From the end of a chain over empty buckets to the start of bucket j. */
  lemma StepOver<T>(bs: seq<seq<T>>, b: nat, j: nat)
    requires b < j <= |bs| && forall k :: b < k < j ==> bs[k] == []
    ensures Behind(bs, j, 0) == Behind(bs, b, |bs[b]|) && Beyond(bs, j, 0) == Beyond(bs, b, |bs[b]|)
  {
    assert bs[..j] == bs[..b + 1] + bs[b + 1..j];
    FlatConcat(bs[..b + 1], bs[b + 1..j]);
    FlatEmpty(bs[b + 1..j]);
    assert bs[..b + 1] == bs[..b] + [bs[b]];
    FlatConcat(bs[..b], [bs[b]]);
    assert Flat([bs[b]]) == bs[b];
    assert bs[b + 1..] == bs[b + 1..j] + bs[j..];
    FlatConcat(bs[b + 1..j], bs[j..]);
    assert j < |bs| ==> bs[j..][1..] == bs[j + 1..];
    assert j == |bs| ==> bs[j..] == [];
  }

  /** Unlinking the current entry takes it off what lies ahead, and nothing else. */
  lemma RemoveHere<T>(bs: seq<seq<T>>, b: nat, i: nat)
    requires b < |bs| && i < |bs[b]|
    ensures var r := Removed(bs, b, i);
            && i <= |r[b]| && Behind(r, b, i) == Behind(bs, b, i)
            && Beyond(bs, b, i) == [bs[b][i]] + Beyond(r, b, i)
  {
  }

  class Iterator<K(==), V> {
    const h: Table<K, V>
    var e: Entry?<K, V>
    var parent: Entry?<K, V>
    var index: nat
    ghost var pos: nat      // how far into its chain the iterator stands

    /** The iterator stands on an entry, with its true predecessor as parent, or is at the end. */
    ghost predicate Stands()
      reads this, h
    {
      && index <= |h.chains| == |h.pairs|
      && (index == |h.chains| ==> e == null && parent == null && pos == 0)
      && (index < |h.chains| ==> pos < |h.chains[index]| == |h.pairs[index]| && e == h.chains[index][pos] &&
                                 parent == if pos == 0 then null else h.chains[index][pos - 1])
    }

    ghost predicate Valid()
      reads this, h, h.table, h.nodes
    {
      h.Valid() && Stands()
    }

    /** The pairs already passed, and those from the current one on. */
    ghost function Passed(): seq<(K, V)>
      requires Stands()
      reads this, h
    {
      Behind(h.pairs, index, pos)
    }

    ghost function Ahead(): seq<(K, V)>
      requires Stands()
      reads this, h
    {
      Beyond(h.pairs, index, pos)
    }

    constructor (h: Table<K, V>)
      requires h.Valid()
      ensures this.h == h && Valid() && Passed() == [] && Ahead() == Flat(h.pairs)
    {
      hide Homes, AllHang, Flat, Homed, Hangs, Behind, Beyond;
      this.h := h;
      e, parent, index, pos := null, null, h.table.Length, 0;
      new;
      BehindAll(h.pairs);
      if h.entrycount == 0 {
        return;
      }
      var i := 0;
      while i < h.table.Length && h.table[i] == null
        invariant i <= h.table.Length && e == null && parent == null && index == h.table.Length && pos == 0
        invariant forall k :: 0 <= k < i ==> h.pairs[k] == []
      {
        h.Head(i);
        i := i + 1;
      }
      BehindNothing(h.pairs, i);
      if i < h.table.Length {
        h.Head(i);
        e, index := h.table[i], i;
      }
    }

    /** The raw move: along the chain, or to the next bucket that is not empty. */
    method Move()
      requires e != null && index < h.table.Length
      modifies this
      ensures old(e.next) != null ==> parent == old(e) && e == old(e.next) && index == old(index)
      ensures old(e.next) == null ==>
        && parent == null && old(index) < index <= h.table.Length
        && (forall k :: old(index) < k < index ==> h.table[k] == null)
        && (if index < h.table.Length then e == h.table[index] && e != null else e == null)
      ensures pos == old(pos)
    {
      var next := e.next;
      if next != null {
        parent, e := e, next;
        return;
      }
      parent := null;
      index := index + 1;
      var j := index;
      if h.table.Length <= j {
        e := null;
        return;
      }
      while h.table[j] == null
        invariant old(index) < j < h.table.Length
        invariant forall k :: old(index) < k < j ==> h.table[k] == null
        decreases h.table.Length - j
      {
        j := j + 1;
        if j >= h.table.Length {
          index, e := h.table.Length, null;
          return;
        }
      }
      index, e := j, h.table[j];
    }

    method Advance() returns (more: bool)
      requires Valid()
      modifies this
      ensures Valid() && more == (e != null)
      ensures if old(e) == null then Passed() == old(Passed()) && Ahead() == old(Ahead())
              else old(Ahead()) == [old((e.k, e.v))] + Ahead() && Passed() == old(Passed()) + [old((e.k, e.v))]
    {
      hide Homes, AllHang, Flat, Behind, Beyond, Homed, Hangs;
      if e == null {
        return false;
      }
      h.NextIn(index, pos);
      StepInside(h.pairs, index, pos);
      Move();
      Settle(old(index), old(pos) + 1);
      pos := if index == old(index) then pos + 1 else 0;
      return e != null;
    }

    /** Where the move has led, when the iterator stood just before position i of bucket b. */
    lemma Settle(b: nat, i: nat)
      requires h.Valid() && b < |h.chains| && i <= |h.pairs[b]| == |h.chains[b]|
      requires if i < |h.chains[b]| then index == b
               else b < index <= h.table.Length && forall k :: b < k < index ==> h.table[k] == null
      ensures i == |h.pairs[b]| ==> Behind(h.pairs, index, 0) == Behind(h.pairs, b, i) &&
                                    Beyond(h.pairs, index, 0) == Beyond(h.pairs, b, i)
      ensures index < h.table.Length ==>
        h.table[index] == At(h.chains[index], 0) && |h.chains[index]| == |h.pairs[index]|
    {
      hide Homes, AllHang, Flat, Behind, Beyond;
      if i == |h.pairs[b]| {
        forall k | b < k < index
          ensures h.pairs[k] == []
        {
          h.Head(k);
        }
        StepOver(h.pairs, b, index);
      }
      if index < h.table.Length {
        h.Head(index);
      }
    }

    /** Removes the current entry and moves on to the next. */
    method Remove() returns (more: bool)
      requires Valid() && e != null
      modifies this, h, h.table, h.nodes
      ensures Valid() && more == (e != null) && h.table == old(h.table) && h.nodes == old(h.nodes)
      ensures Passed() == old(Passed()) && old(Ahead()) == [old((e.k, e.v))] + Ahead()
    {
      hide Homes, AllHang, Flat, Behind, Beyond, Homed, Hangs, Removed;
      h.NextIn(index, pos);
      h.SameLengths();
      RemoveHere(h.pairs, index, pos);
      ChainMembers(h.hash, h.chains, h.nodes, index);
      AfterRemoval(h.chains[index], pos);
      assert h.chains[index][pos] in h.nodes;
      ghost var c := Removed(h.chains, index, pos)[index];
      RemovedBucket(h.chains, index, pos);
      h.Unlink(index, parent, e, pos);
      MoveOff(c);
      return e != null;
    }

    /** After the current entry was unlinked from its chain, now c: moves, correcting the parent. */
    method MoveOff(ghost c: seq<Entry<K, V>>)
      requires h.Valid() && e != null && index < |h.chains| && c == h.chains[index] && pos <= |c|
      requires e.next == At(c, pos) && e !in c && parent == if pos == 0 then null else c[pos - 1]
      modifies this
      ensures Stands()
      ensures |h.pairs[old(index)]| == |c| && Passed() == Behind(h.pairs, old(index), old(pos)) &&
              Ahead() == Beyond(h.pairs, old(index), old(pos))
    {
      hide Homes, AllHang, Flat, Behind, Beyond, Homed, Hangs;
      h.SameLengths();
      var rememberE, rememberParent := e, parent;
      Move();
      if parent == rememberE {
        parent := rememberParent;
      }
      Settle(old(index), pos);
      pos := if index == old(index) then pos else 0;
    }
  }

  /** What is left of s when the element visited n-th goes just when doomed(n). */
  function Spared<T>(s: seq<T>, doomed: nat -> bool): seq<T> {
    if s == [] then []
    else
      var n := |s| - 1;
      Spared(s[..n], doomed) + (if doomed(n) then [] else [s[n]])
  }

  lemma SparedMore<T>(s: seq<T>, x: T, doomed: nat -> bool)
    ensures Spared(s + [x], doomed) == Spared(s, doomed) + (if doomed(|s|) then [] else [x])
  {
    assert (s + [x])[..|s|] == s;
  }

  /** What is left are the elements at exactly the positions that were not chosen, in order. */
  lemma {:induction false} SparedPositions<T>(s: seq<T>, doomed: nat -> bool) returns (at: seq<nat>)
    ensures |at| == |Spared(s, doomed)| && forall j: nat :: j in at <==> j < |s| && !doomed(j)
    ensures forall k :: 0 <= k < |at| ==> at[k] < |s| && Spared(s, doomed)[k] == s[at[k]]
    ensures forall k, l :: 0 <= k < l < |at| ==> at[k] < at[l]
  {
    hide Spared;
    if s == [] {
      NothingSpared<T>(doomed);
      at := [];
    } else {
      var n := |s| - 1;
      var front := s[..n];
      assert s == front + [s[n]];
      SparedMore(front, s[n], doomed);
      at := SparedPositions(front, doomed);
      assert forall k :: 0 <= k < |at| ==> at[k] in at;
      if !doomed(n) {
        at := at + [n];
      }
    }
  }

  /** One sweep over the table, with any choice of the visits that remove the current entry: every pair
      is visited exactly once, in table order; the chosen ones go and the others stay in order. */
  method Sweep<K(==), V>(h: Table<K, V>, doomed: nat -> bool) returns (visited: seq<(K, V)>)
    requires h.Valid()
    modifies h, h.table, h.nodes
    ensures h.Valid() && visited == Flat(old(h.pairs)) && Flat(h.pairs) == Spared(visited, doomed)
    ensures h.entrycount == |Spared(visited, doomed)|
  {
    hide Table.Valid, Flat, Spared, Behind, Beyond;
    var itr := new Iterator(h);
    visited := [];
    NothingSpared<(K, V)>(doomed);
    while itr.e != null
      invariant itr.h == h && fresh(itr) && itr.Valid() && h.table == old(h.table) && h.nodes == old(h.nodes)
      invariant visited + itr.Ahead() == Flat(old(h.pairs))
      invariant itr.Passed() == Spared(visited, doomed)
      decreases |itr.Ahead()|
    {
      var p := (itr.e.k, itr.e.v);
      SparedMore(visited, p, doomed);
      var more;
      if doomed(|visited|) {
        more := itr.Remove();
      } else {
        more := itr.Advance();
      }
      visited := visited + [p];
    }
    BehindAll(h.pairs);
    CountOf(h);
  }

  lemma CountOf<K, V>(h: Table<K, V>)
    requires h.Valid()
    ensures h.entrycount == |Flat(h.pairs)|
  {
  }

  lemma NothingSpared<T>(doomed: nat -> bool)
    ensures Spared<T>([], doomed) == []
  {
  }

  lemma AfterRemoval<K, V>(c: seq<Entry<K, V>>, i: nat)
    requires i < |c| && forall j, k :: 0 <= j < k < |c| ==> c[j] != c[k]
    ensures var d := Without(c, i);
            && c[i] !in d && At(c, i + 1) == At(d, i) && (i > 0 ==> d[i - 1] == c[i - 1])
  {
  }

  lemma RemovedBucket<T>(bs: seq<seq<T>>, b: nat, i: nat)
    requires b < |bs| && i < |bs[b]|
    ensures Removed(bs, b, i)[b] == Without(bs[b], i)
  {
  }
}
