/** The merge sort, whose merge takes equal elements from the right half first. */
module MergeSort {
  import opened Common

  /** The comparison orders all elements, equal ones in either order. */
  ghost predicate TotalPreorder<T(!new)>(cmp: (T, T) -> int) {
    && (forall x, y :: cmp(x, y) < 0 <==> cmp(y, x) > 0)
    && (forall x, y, z :: cmp(x, y) <= 0 && cmp(y, z) <= 0 ==> cmp(x, z) <= 0)
  }

  ghost predicate Sorted<T>(cmp: (T, T) -> int, s: seq<T>) {
    forall i, j :: 0 <= i < j < |s| ==> cmp(s[i], s[j]) <= 0
  }

  /** The elements that compare equal to x, in order. */
  function Class<T>(cmp: (T, T) -> int, s: seq<T>, x: T): seq<T> {
    if s == [] then [] else (if cmp(s[0], x) == 0 then [s[0]] else []) + Class(cmp, s[1..], x)
  }

  // ---------- What the code computes ----------

  function Merged<T>(cmp: (T, T) -> int, l: seq<T>, r: seq<T>): (m: seq<T>)
    ensures |m| == |l| + |r| && multiset(m) == multiset(l) + multiset(r)
    decreases |l| + |r|
  {
    if l == [] then r
    else if r == [] then l
    else if cmp(l[0], r[0]) < 0 then
      assert l == [l[0]] + l[1..];
      [l[0]] + Merged(cmp, l[1..], r)
    else
      assert r == [r[0]] + r[1..];
      [r[0]] + Merged(cmp, l, r[1..])
  }

  function MergeSorted<T>(cmp: (T, T) -> int, s: seq<T>): (m: seq<T>)
    ensures |m| == |s| && multiset(m) == multiset(s)
    decreases |s|
  {
    if |s| <= 1 then s
    else
      var h := |s| / 2;
      assert s == s[..h] + s[h..];
      Merged(cmp, MergeSorted(cmp, s[..h]), MergeSorted(cmp, s[h..]))
  }

  // ---------- Why it is right ----------

  lemma {:induction false} ClassConcat<T>(cmp: (T, T) -> int, a: seq<T>, b: seq<T>, x: T)
    ensures Class(cmp, a + b, x) == Class(cmp, a, x) + Class(cmp, b, x)
  {
    if a == [] {
      assert a + b == b;
    } else {
      var head := if cmp(a[0], x) == 0 then [a[0]] else [];
      calc {
        Class(cmp, a + b, x);
        { assert (a + b)[1..] == a[1..] + b; }
        head + Class(cmp, a[1..] + b, x);
        { ClassConcat(cmp, a[1..], b, x); }
        head + (Class(cmp, a[1..], x) + Class(cmp, b, x));
        Class(cmp, a, x) + Class(cmp, b, x);
      }
    }
  }

  lemma {:induction false} ClassEmpty<T>(cmp: (T, T) -> int, s: seq<T>, x: T)
    requires forall i :: 0 <= i < |s| ==> cmp(s[i], x) != 0
    ensures Class(cmp, s, x) == []
  {
    if s != [] {
      ClassEmpty(cmp, s[1..], x);
    }
  }

  lemma AboveIsDifferent<T(!new)>(cmp: (T, T) -> int, y: T, x: T, r0: T, r: T)
    requires TotalPreorder(cmp) && cmp(y, r0) < 0 && cmp(r0, r) <= 0 && cmp(y, x) == 0
    ensures cmp(r, x) != 0
  {
  }

  lemma SelfEqual<T(!new)>(cmp: (T, T) -> int, x: T)
    requires TotalPreorder(cmp)
    ensures cmp(x, x) == 0
  {
  }

  /** Nothing in a sorted run that starts above y is equal to an x that y equals. */
  lemma NoneEqual<T(!new)>(cmp: (T, T) -> int, r: seq<T>, y: T, x: T)
    requires TotalPreorder(cmp) && Sorted(cmp, r) && r != [] && cmp(y, r[0]) < 0 && cmp(y, x) == 0
    ensures Class(cmp, r, x) == []
  {
    SelfEqual(cmp, r[0]);
    forall i | 0 <= i < |r|
      ensures cmp(r[i], x) != 0
    {
      AboveIsDifferent(cmp, y, x, r[0], r[i]);
    }
    ClassEmpty(cmp, r, x);
  }

  /** In a merge of sorted runs, equal elements of the right run precede those of the left. */
  lemma {:induction false} MergedClass<T(!new)>(cmp: (T, T) -> int, l: seq<T>, r: seq<T>, x: T)
    requires TotalPreorder(cmp) && Sorted(cmp, l) && Sorted(cmp, r)
    ensures Class(cmp, Merged(cmp, l, r), x) == Class(cmp, r, x) + Class(cmp, l, x)
    decreases |l| + |r|
  {
    hide TotalPreorder;
    if l != [] && r != [] {
      if cmp(l[0], r[0]) < 0 {
        MergedClass(cmp, l[1..], r, x);
        assert ([l[0]] + Merged(cmp, l[1..], r))[1..] == Merged(cmp, l[1..], r);
        if cmp(l[0], x) == 0 {
          NoneEqual(cmp, r, l[0], x);
        }
      } else {
        MergedClass(cmp, l, r[1..], x);
        assert ([r[0]] + Merged(cmp, l, r[1..]))[1..] == Merged(cmp, l, r[1..]);
      }
    }
  }

  lemma {:induction false} MergedSorted<T(!new)>(cmp: (T, T) -> int, l: seq<T>, r: seq<T>)
    requires TotalPreorder(cmp) && Sorted(cmp, l) && Sorted(cmp, r)
    ensures Sorted(cmp, Merged(cmp, l, r))
    decreases |l| + |r|
  {
    if l != [] && r != [] {
      if cmp(l[0], r[0]) < 0 {
        MergedSorted(cmp, l[1..], r);
        HeadBelow(cmp, l[0], l[1..], r);
      } else {
        MergedSorted(cmp, l, r[1..]);
        HeadBelow(cmp, r[0], l, r[1..]);
      }
    }
  }

  lemma HeadBelow<T(!new)>(cmp: (T, T) -> int, x: T, l: seq<T>, r: seq<T>)
    requires TotalPreorder(cmp) && Sorted(cmp, Merged(cmp, l, r))
    requires (forall i :: 0 <= i < |l| ==> cmp(x, l[i]) <= 0) && forall i :: 0 <= i < |r| ==> cmp(x, r[i]) <= 0
    ensures Sorted(cmp, [x] + Merged(cmp, l, r))
  {
    var m := Merged(cmp, l, r);
    forall i | 0 <= i < |m|
      ensures cmp(x, m[i]) <= 0
    {
      assert m[i] in multiset(m);
      assert m[i] in l || m[i] in r;
    }
  }

  lemma {:induction false} Sorts<T(!new)>(cmp: (T, T) -> int, s: seq<T>)
    requires TotalPreorder(cmp)
    ensures Sorted(cmp, MergeSorted(cmp, s))
    decreases |s|
  {
    hide TotalPreorder, Merged;
    if |s| > 1 {
      var h := |s| / 2;
      Sorts(cmp, s[..h]);
      Sorts(cmp, s[h..]);
      MergedSorted(cmp, MergeSorted(cmp, s[..h]), MergeSorted(cmp, s[h..]));
    }
  }

  lemma ClassShort<T>(cmp: (T, T) -> int, s: seq<T>, x: T)
    requires |s| <= 1
    ensures |Class(cmp, s, x)| <= 1
  {
  }

  lemma ReversedShort<T>(c: seq<T>)
    ensures |c| <= 1 ==> Reversed(c) == c
  {
  }

  /** Every class of equal elements comes out in exactly the reverse of its original order. */
  lemma {:induction false} TiesReversed<T(!new)>(cmp: (T, T) -> int, s: seq<T>, x: T)
    requires TotalPreorder(cmp)
    ensures Class(cmp, MergeSorted(cmp, s), x) == Reversed(Class(cmp, s, x))
    decreases |s|
  {
    hide TotalPreorder, Merged, Sorted, MergeSorted, Class;
    SortUnfold(cmp, s);
    if |s| <= 1 {
      ReversedShort(Class(cmp, s, x));
      ClassShort(cmp, s, x);
    } else {
      var h := |s| / 2;
      TiesReversed(cmp, s[..h], x);
      TiesReversed(cmp, s[h..], x);
      Sorts(cmp, s[..h]);
      Sorts(cmp, s[h..]);
      MergedClass(cmp, MergeSorted(cmp, s[..h]), MergeSorted(cmp, s[h..]), x);
      assert s == s[..h] + s[h..];
      ClassConcat(cmp, s[..h], s[h..], x);
      ReversedConcat(Class(cmp, s[..h], x), Class(cmp, s[h..], x));
    }
  }

  /** Order and classes determine the result: no other sequence is sorted with these classes. */
  lemma {:induction false} SortedByClasses<T(!new)>(cmp: (T, T) -> int, a: seq<T>, b: seq<T>)
    requires TotalPreorder(cmp) && Sorted(cmp, a) && Sorted(cmp, b)
    requires forall x :: Class(cmp, a, x) == Class(cmp, b, x)
    ensures a == b
    decreases |a|
  {
    hide TotalPreorder;
    if a == [] {
      if b != [] {
        ClassOfFirst(cmp, b);
        assert false;
      }
    } else {
      FirstsAgree(cmp, a, b);
      forall x
        ensures Class(cmp, a[1..], x) == Class(cmp, b[1..], x)
      {
        var head := if cmp(a[0], x) == 0 then [a[0]] else [];
        assert Class(cmp, a, x) == head + Class(cmp, a[1..], x);
        assert Class(cmp, b, x) == head + Class(cmp, b[1..], x);
        assert Class(cmp, a[1..], x) == Class(cmp, a, x)[|head|..];
      }
      SortedByClasses(cmp, a[1..], b[1..]);
    }
  }

  lemma {:induction false} ClassMember<T>(cmp: (T, T) -> int, s: seq<T>, x: T) returns (i: nat)
    requires Class(cmp, s, x) != []
    ensures i < |s| && cmp(s[i], x) == 0 && s[i] == Class(cmp, s, x)[0]
  {
    if cmp(s[0], x) == 0 {
      i := 0;
    } else {
      i := ClassMember(cmp, s[1..], x);
      i := i + 1;
    }
  }

  lemma ClassOfFirst<T(!new)>(cmp: (T, T) -> int, a: seq<T>)
    requires TotalPreorder(cmp) && a != []
    ensures Class(cmp, a, a[0]) != [] && Class(cmp, a, a[0])[0] == a[0]
  {
  }

  lemma FirstsEqual<T(!new)>(cmp: (T, T) -> int, a: T, aj: T, b: T, bi: T)
    requires TotalPreorder(cmp) && cmp(a, aj) <= 0 && cmp(b, bi) <= 0 && cmp(bi, a) == 0 && cmp(aj, b) == 0
    ensures cmp(b, a) == 0
  {
  }

  lemma FirstsAgree<T(!new)>(cmp: (T, T) -> int, a: seq<T>, b: seq<T>)
    requires TotalPreorder(cmp) && Sorted(cmp, a) && Sorted(cmp, b) && a != []
    requires forall x :: Class(cmp, a, x) == Class(cmp, b, x)
    ensures b != [] && b[0] == a[0]
  {
    hide TotalPreorder;
    ClassOfFirst(cmp, a);
    assert Class(cmp, b, a[0]) != [];
    var i := ClassMember(cmp, b, a[0]);
    ClassOfFirst(cmp, b);
    assert Class(cmp, a, b[0]) != [];
    var j := ClassMember(cmp, a, b[0]);
    SelfEqual(cmp, a[0]);
    SelfEqual(cmp, b[0]);
    FirstsEqual(cmp, a[0], a[j], b[0], b[i]);
    assert Class(cmp, b, a[0])[0] == b[0];
  }

  // ---------- The array code ----------

  /** s with the stretch [i, end) replaced. */
  function Spliced<T>(s: seq<T>, i: nat, end: nat, mid: seq<T>): (r: seq<T>)
    requires i <= end <= |s| && |mid| == end - i
    ensures |r| == |s|
  {
    s[..i] + mid + s[end..]
  }

  /** Merges the sorted runs a[i..j] and a[j+1..k] through a buffer. */
  method Merge<T(0)>(a: array<T>, i: nat, j: nat, k: nat, cmp: (T, T) -> int)
    requires i <= j < k < a.Length
    modifies a
    ensures a[..] == Spliced(old(a[..]), i, k + 1, Stretches(cmp, old(a[..]), i, j + 1, j + 1, k + 1))
  {
    hide Stretches;
    var m := new T[k - i + 1];
    MergeInto(a, i, j, k, cmp, m);
    CopyBack(a, i, m);
  }

  /** The merge of two stretches of s. */
  function Stretches<T>(cmp: (T, T) -> int, s: seq<T>, ipos: nat, iend: nat, jpos: nat, jend: nat): (r: seq<T>)
    requires ipos <= iend <= |s| && jpos <= jend <= |s|
    ensures |r| == (iend - ipos) + (jend - jpos)
  {
    Merged(cmp, s[ipos..iend], s[jpos..jend])
  }

  /** The merging loop. */
  method MergeInto<T>(a: array<T>, i: nat, j: nat, k: nat, cmp: (T, T) -> int, m: array<T>)
    requires i <= j < k < a.Length && m != a && m.Length == k - i + 1
    modifies m
    ensures m[..] == Stretches(cmp, a[..], i, j + 1, j + 1, k + 1)
  {
    hide Merged, Stretches;
    var ipos, jpos, mpos := i, j + 1, 0;
    ghost var s := a[..];
    ghost var all := Stretches(cmp, s, i, j + 1, j + 1, k + 1);
    while ipos <= j || jpos <= k
      invariant i <= ipos <= j + 1 <= jpos <= k + 1 && mpos == (ipos - i) + (jpos - j - 1)
      invariant Stretches(cmp, s, ipos, j + 1, jpos, k + 1) == all[mpos..]
      invariant forall p :: 0 <= p < mpos ==> m[p] == all[p]
      decreases (j + 1 - ipos) + (k + 1 - jpos)
    {
      StretchesUnfold(cmp, s, ipos, j + 1, jpos, k + 1);
      if ipos > j {
        CopyRun(a, jpos, k + 1, m, mpos, all);
        mpos, jpos := mpos + (k + 1 - jpos), k + 1;
        continue;
      } else if jpos > k {
        CopyRun(a, ipos, j + 1, m, mpos, all);
        mpos, ipos := mpos + (j + 1 - ipos), j + 1;
        continue;
      }
      if cmp(a[ipos], a[jpos]) < 0 {
        TailOf(a[ipos], Stretches(cmp, s, ipos + 1, j + 1, jpos, k + 1), all, mpos);
        m[mpos] := a[ipos];
        ipos, mpos := ipos + 1, mpos + 1;
      } else {
        TailOf(a[jpos], Stretches(cmp, s, ipos, j + 1, jpos + 1, k + 1), all, mpos);
        m[mpos] := a[jpos];
        jpos, mpos := jpos + 1, mpos + 1;
      }
    }
  }

  lemma TailOf<T>(x: T, r: seq<T>, all: seq<T>, mpos: nat)
    requires mpos <= |all| && [x] + r == all[mpos..]
    ensures mpos < |all| && all[mpos] == x && r == all[mpos + 1..]
  {
  }

  /** Copies what is left of one run. */
  method CopyRun<T>(a: array<T>, from: nat, to: nat, m: array<T>, mpos: nat, ghost all: seq<T>)
    requires a != m && from <= to <= a.Length && mpos + (to - from) <= m.Length && m.Length == |all|
    requires a[from..to] == all[mpos..] && forall p :: 0 <= p < mpos ==> m[p] == all[p]
    modifies m
    ensures forall p :: 0 <= p < mpos + (to - from) ==> m[p] == all[p]
    ensures mpos + (to - from) == |all|
  {
    var pos, q := from, mpos;
    assert |all[mpos..]| == to - from;
    while pos < to
      invariant from <= pos <= to && q == mpos + (pos - from)
      invariant forall p :: 0 <= p < q ==> m[p] == all[p]
    {
      assert a[pos] == a[from..to][pos - from] == all[q];
      m[q] := a[pos];
      pos, q := pos + 1, q + 1;
    }
  }

  lemma StretchesUnfold<T>(cmp: (T, T) -> int, s: seq<T>, ipos: nat, iend: nat, jpos: nat, jend: nat)
    requires ipos <= iend <= |s| && jpos <= jend <= |s| && (ipos < iend || jpos < jend)
    ensures Stretches(cmp, s, ipos, iend, jpos, jend) ==
            if ipos == iend then s[jpos..jend]
            else if jpos == jend then s[ipos..iend]
            else if cmp(s[ipos], s[jpos]) < 0 then [s[ipos]] + Stretches(cmp, s, ipos + 1, iend, jpos, jend)
            else [s[jpos]] + Stretches(cmp, s, ipos, iend, jpos + 1, jend)
  {
    if ipos < iend {
      assert s[ipos..iend][1..] == s[ipos + 1..iend];
    }
    if jpos < jend {
      assert s[jpos..jend][1..] == s[jpos + 1..jend];
    }
  }

  method CopyBack<T>(a: array<T>, i: nat, m: array<T>)
    requires a != m && i + m.Length <= a.Length
    modifies a
    ensures a[..] == Spliced(old(a[..]), i, i + m.Length, m[..])
  {
    for p := 0 to m.Length
      invariant a[..] == old(a[..i]) + m[..p] + old(a[i + p..])
    {
      a[i + p] := m[p];
    }
    assert m[..m.Length] == m[..];
  }

  lemma SortUnfold<T>(cmp: (T, T) -> int, s: seq<T>)
    ensures MergeSorted(cmp, s) == if |s| <= 1 then s
                                   else Merged(cmp, MergeSorted(cmp, s[..|s| / 2]), MergeSorted(cmp, s[|s| / 2..]))
  {
  }

  /** Sorting both halves of a stretch and merging them sorts the stretch. */
  lemma SortedHalves<T>(cmp: (T, T) -> int, s: seq<T>, i: nat, mid: nat, end: nat)
    requires i < mid < end <= |s| && mid - i == (end - i) / 2
    ensures var s1 := Spliced(s, i, mid, MergeSorted(cmp, s[i..mid]));
            var s2 := Spliced(s1, mid, end, MergeSorted(cmp, s1[mid..end]));
            Spliced(s2, i, end, Stretches(cmp, s2, i, mid, mid, end)) == Spliced(s, i, end, MergeSorted(cmp, s[i..end]))
  {
    hide Merged, MergeSorted;
    var t := s[i..end];
    var l, r := MergeSorted(cmp, s[i..mid]), MergeSorted(cmp, s[mid..end]);
    assert s[i..mid] == t[..|t| / 2] && s[mid..end] == t[|t| / 2..];
    SortUnfold(cmp, t);
    var s1 := Spliced(s, i, mid, l);
    assert s1[mid..end] == s[mid..end];
    var s2 := Spliced(s1, mid, end, r);
    assert s2[i..mid] == l && s2[mid..end] == r;
  }

  /** Sorts a[i..k] in place. */
  method Sort<T(0)>(a: array<T>, i: nat, k: int, cmp: (T, T) -> int)
    requires -1 <= k < a.Length && i <= k + 1
    modifies a
    ensures a[..] == Spliced(old(a[..]), i, k + 1, MergeSorted(cmp, old(a[..])[i..k + 1]))
    decreases k + 1 - i, 1
  {
    hide Merged, MergeSorted, Stretches, Spliced;
    ghost var s := a[..];
    ghost var goal := Spliced(s, i, k + 1, MergeSorted(cmp, s[i..k + 1]));
    if i < k {
      var j := (i + k - 1) / 2;
      SortedHalves(cmp, s, i, j + 1, k + 1);
      SortHalves(a, i, j, k, cmp);
      assert a[..] == goal;
    } else {
      NothingToSort(cmp, s, i, k + 1);
      assert a[..] == goal;
    }
  }

  method SortHalves<T(0)>(a: array<T>, i: nat, j: nat, k: nat, cmp: (T, T) -> int)
    requires i <= j < k < a.Length
    modifies a
    ensures var s1 := Spliced(old(a[..]), i, j + 1, MergeSorted(cmp, old(a[..])[i..j + 1]));
            var s2 := Spliced(s1, j + 1, k + 1, MergeSorted(cmp, s1[j + 1..k + 1]));
            a[..] == Spliced(s2, i, k + 1, Stretches(cmp, s2, i, j + 1, j + 1, k + 1))
    decreases k + 1 - i, 0
  {
    hide Merged, MergeSorted, Stretches, Spliced;
    Sort(a, i, j, cmp);
    Sort(a, j + 1, k, cmp);
    Merge(a, i, j, k, cmp);
  }

  lemma NothingToSort<T>(cmp: (T, T) -> int, s: seq<T>, i: nat, end: nat)
    requires i <= end <= |s| && end - i <= 1
    ensures Spliced(s, i, end, MergeSorted(cmp, s[i..end])) == s
  {
  }
}
