/** The in-place block exchange of the option scanner: Euclid's algorithm and the gcd-many
    swap cycles that turn A ++ B into B ++ A. */
module Rotation {

  /** The mathematical effect: the adjacent blocks s[lo..mid] and s[mid..hi] trade places. */
  function Exchanged<T>(s: seq<T>, lo: nat, mid: nat, hi: nat): (r: seq<T>)
    requires lo <= mid <= hi <= |s|
    ensures |r| == |s|
  {
    s[..lo] + s[mid..hi] + s[lo..mid] + s[hi..]
  }

  lemma ExchangedParts<T>(s: seq<T>, lo: nat, mid: nat, hi: nat)
    requires lo <= mid <= hi <= |s|
    ensures var e := Exchanged(s, lo, mid, hi);
            && e[..lo] == s[..lo] && e[lo..lo + hi - mid] == s[mid..hi]
            && e[lo + hi - mid..hi] == s[lo..mid] && e[hi..] == s[hi..]
  {
  }

  // ---------- Euclid ----------

  /** `g` divides both numbers, and is the integer combination x*a + y*b. */
  ghost predicate Bezout(g: int, a: int, b: int, x: int, y: int) {
    g > 0 && x * a + y * b == g && exists p, q :: Cofactors(g, a, b, p, q)
  }

  ghost predicate Cofactors(g: int, a: int, b: int, p: int, q: int) {
    a == g * p && b == g * q
  }

  predicate Divides(d: int, n: int) {
    d > 0 && n % d == 0
  }

  ghost predicate IsGcd(g: int, a: int, b: int) {
    Divides(g, a) && Divides(g, b) && forall d :: Divides(d, a) && Divides(d, b) ==> Divides(d, g)
  }

  /** A Bezout certificate makes g the greatest common divisor. */
  lemma CertifiedGcd(g: int, a: int, b: int, x: int, y: int)
    requires Bezout(g, a, b, x, y)
    ensures IsGcd(g, a, b)
  {
    var p, q :| Cofactors(g, a, b, p, q);
    RemainderIs(a, p, 0, g);
    RemainderIs(b, q, 0, g);
    forall d | Divides(d, a) && Divides(d, b)
      ensures Divides(d, g)
    {
      CombinationDivisible(g, a, b, x, y, d);
    }
  }

  lemma CombinationDivisible(g: int, a: int, b: int, x: int, y: int, d: int)
    requires d > 0 && a % d == 0 && b % d == 0 && x * a + y * b == g
    ensures g % d == 0
  {
    var da, db := a / d, b / d;
    Reassociate(x, da, d);
    Reassociate(y, db, d);
    assert g == (x * da + y * db) * d;
    RemainderIs(g, x * da + y * db, 0, d);
  }

  lemma Reassociate(x: int, y: int, z: int)
    ensures x * (y * z) == (x * y) * z
  {
  }

  /** One Euclid step read backwards: a certificate for (b, a mod b) is one for (a, b). */
  lemma EuclidStep(g: int, a: int, b: int, x: int, y: int)
    requires b > 0
    requires Bezout(g, b, a % b, x, y)
    ensures Bezout(g, a, b, y, x - y * (a / b))
  {
    var k := a / b;
    var p, q :| Cofactors(g, b, a % b, p, q);
    assert a == b * k + a % b;
    assert y * (b * k) == (y * k) * b;
    assert y * a == y * (b * k) + y * (a % b);
    assert (x - y * k) * b == x * b - (y * k) * b;
    assert g * p * k == g * (p * k);
    assert Cofactors(g, a, b, p * k + q, p);
  }

  /** The certificate found by running Euclid's algorithm on (a, b). */
  ghost function EuclidCoefficients(a: int, b: int): (c: (int, int, int))
    requires a >= 0 && b > 0
    ensures Bezout(c.0, a, b, c.1, c.2)
    decreases b
  {
    if a % b == 0 then
      assert a == b * (a / b);
      assert Cofactors(b, a, b, a / b, 1);
      (b, 0, 1)
    else
      var (g, x, y) := EuclidCoefficients(b, a % b);
      EuclidStep(g, a, b, x, y);
      (g, y, x - y * (a / b))
  }

  method Gcd(a0: int, b0: int) returns (g: int)
    requires a0 >= 0 && b0 > 0
    ensures IsGcd(g, a0, b0)
    ensures g == EuclidCoefficients(a0, b0).0
  {
    var a, b := a0, b0;
    var c := a % b;
    while c != 0
      invariant a >= 0 && b > 0 && c == a % b
      invariant EuclidCoefficients(a, b).0 == EuclidCoefficients(a0, b0).0
      decreases b
    {
      a := b;
      b := c;
      c := a % b;
    }
    g := b;
    CertifiedGcd(g, a0, b0, EuclidCoefficients(a0, b0).1, EuclidCoefficients(a0, b0).2);
  }

  // ---------- The cycle structure of a rotation ----------

  /** Where the element at relative position r must go, and where r's new element comes from. */
  function Next(r: int, na: nat, nb: nat): int {
    if r >= na then r - na else r + nb
  }

  function Prev(r: int, na: nat, nb: nat): int {
    if r >= nb then r - nb else r + na
  }

  lemma ProductBounds(d: int, m: int)
    requires m > 0
    ensures d >= 1 ==> d * m >= m
    ensures d <= -1 ==> d * m <= -m
    ensures d == 0 ==> d * m == 0
  {
    if d >= 1 {
      assert (d - 1) * m >= 0;
    } else if d <= -1 {
      assert (-d - 1) * m >= 0;
    }
  }

  lemma RemainderIs(v: int, k: int, r: int, m: int)
    requires 0 <= r < m && v == k * m + r
    ensures v % m == r && v / m == k
  {
    var d := v / m - k;
    assert d * m == r - v % m;
    ProductBounds(d, m);
  }

  lemma ShiftByMultiple(v: int, k: int, m: int)
    requires m > 0
    ensures (v + k * m) % m == v % m
  {
    assert v + k * m == (v / m + k) * m + v % m;
    RemainderIs(v + k * m, v / m + k, v % m, m);
  }

  /** The block lengths factored through their gcd, with w the inverse of q modulo p + q. */
  datatype Shape = Shape(g: int, p: int, q: int, w: int, x: int) {
    function Len(): int { p + q }

    ghost predicate Ok(na: nat, nb: nat) {
      && g > 0 && p > 0 && q > 0
      && na == g * p && nb == g * q
      && q * w + x * Len() == 1
    }

    /** On which swap of its own cycle the relative position r is filled. */
    function Turn(r: int): int
      requires g > 0 && Len() > 0
    {
      ((r / g - p) * w) % Len()
    }
  }

  ghost function ShapeOf(na: nat, nb: nat): (s: Shape)
    requires na > 0 && nb > 0
    ensures s.Ok(na, nb) && s.g == EuclidCoefficients(na, nb).0
  {
    var (g, x, y) := EuclidCoefficients(na, nb);
    var p, q :| Cofactors(g, na, nb, p, q);
    FactorPositive(g, p, na);
    FactorPositive(g, q, nb);
    CancelGcd(g, p, q, x, y);
    assert q * (y - x) + x * (p + q) == 1 by {
      assert q * (y - x) == y * q - x * q;
      assert x * (p + q) == x * p + x * q;
    }
    Shape(g, p, q, y - x, x)
  }

  lemma FactorPositive(g: int, p: int, n: int)
    requires g > 0 && n > 0 && n == g * p
    ensures p > 0
  {
    ProductBounds(p, g);
  }

  lemma CancelGcd(g: int, p: int, q: int, x: int, y: int)
    requires g > 0 && x * (g * p) + y * (g * q) == g
    ensures x * p + y * q == 1
  {
    var t := x * p + y * q;
    assert t * g == g by {
      assert x * (g * p) == g * (x * p);
      assert y * (g * q) == g * (y * q);
    }
    ProductBounds(t - 1, g);
  }

  /** A step of the rotation adds q to the quotient by g, modulo p + q, and keeps the remainder. */
  lemma NextQuotient(s: Shape, na: nat, nb: nat, r: int)
    requires s.Ok(na, nb) && 0 <= r < na + nb
    ensures var e := if r >= na then 1 else 0;
            Next(r, na, nb) % s.g == r % s.g && Next(r, na, nb) / s.g == r / s.g + s.q - e * s.Len()
  {
    var e := if r >= na then 1 else 0;
    var u := r / s.g;
    var u' := u + s.q - e * s.Len();
    assert u' * s.g == u * s.g + s.q * s.g - e * (s.p * s.g + s.q * s.g);
    RemainderIs(Next(r, na, nb), u', r % s.g, s.g);
  }

  lemma ExpandTurn(v: int, q: int, w: int, x: int, e: int, m: int)
    requires q * w + x * m == 1
    ensures (v + q - e * m) * w == (v * w + 1) + (-x - e * w) * m
  {
    calc {
      (v + q - e * m) * w;
      { Distribute(w, v + q, -(e * m)); Distribute(w, v, q); }
      v * w + q * w - (e * m) * w;
      { Reassociate(e, m, w); Reassociate(e, w, m); }
      v * w + (1 - x * m) - (e * w) * m;
      { Distribute(m, -x, -(e * w)); }
      (v * w + 1) + (-x - e * w) * m;
    }
  }

  lemma SuccessorRemainder(u: int, t: int, k: int, m: int)
    requires m > 0 && u == (t + 1) + k * m
    ensures u % m == (t % m + 1) % m
  {
    ShiftByMultiple(t + 1, k, m);
    assert t + 1 == (t % m + 1) + (t / m) * m;
    ShiftByMultiple(t % m + 1, t / m, m);
  }

  /** A step of the rotation stays in its residue class modulo g and takes the next turn. */
  lemma NextTurn(s: Shape, na: nat, nb: nat, r: int)
    requires s.Ok(na, nb) && 0 <= r < na + nb
    ensures Next(r, na, nb) % s.g == r % s.g
    ensures s.Turn(Next(r, na, nb)) == (s.Turn(r) + 1) % s.Len()
  {
    NextQuotient(s, na, nb, r);
    var e := if r >= na then 1 else 0;
    var v := r / s.g - s.p;      // adding q before the multiplication by its inverse w adds one turn
    ExpandTurn(v, s.q, s.w, s.x, e, s.Len());
    SuccessorRemainder((v + s.q - e * s.Len()) * s.w, v * s.w, -s.x - e * s.w, s.Len());
  }

  /** Equal turns mean equal quotients, because w has the inverse q. */
  lemma EqualTurns(v1: int, v2: int, q: int, w: int, x: int, m: int)
    requires m > 0 && q * w + x * m == 1 && -m < v1 - v2 < m
    requires (v1 * w) % m == (v2 * w) % m
    ensures v1 == v2
  {
    var t1, t2, d := v1 * w, v2 * w, v1 - v2;
    var k := t1 / m - t2 / m;
    assert d * w == k * m by {
      assert t1 == (t1 / m) * m + t1 % m;
      assert t2 == (t2 / m) * m + t2 % m;
    }
    TimesInverse(d, q, w, x, k, m);
    ProductBounds(q * k + x * d, m);
  }

  lemma TimesInverse(d: int, q: int, w: int, x: int, k: int, m: int)
    requires q * w + x * m == 1 && d * w == k * m
    ensures d == (q * k + x * d) * m
  {
    calc {
      d;
      d * (q * w + x * m);
      { Distribute(d, q * w, x * m); }
      d * (q * w) + d * (x * m);
      { Reassociate(d, q, w); Reassociate(q, d, w); Reassociate(d, x, m); }
      q * (d * w) + (d * x) * m;
      { Reassociate(q, k, m); }
      (q * k) * m + (x * d) * m;
      { Distribute(m, q * k, x * d); }
      (q * k + x * d) * m;
    }
  }

  lemma Distribute(m: int, u: int, v: int)
    ensures m * (u + v) == m * u + m * v
  {
  }

  /** Within a residue class no two positions take the same turn: the cycles do not overlap. */
  lemma TurnInjective(s: Shape, na: nat, nb: nat, r1: int, r2: int)
    requires s.Ok(na, nb) && 0 <= r1 < na + nb && 0 <= r2 < na + nb
    requires r1 % s.g == r2 % s.g && s.Turn(r1) == s.Turn(r2)
    ensures r1 == r2
  {
    BlocksFactor(s, na, nb);
    QuotientBound(r1, s.g, s.Len(), na + nb);
    QuotientBound(r2, s.g, s.Len(), na + nb);
    EqualTurns(r1 / s.g - s.p, r2 / s.g - s.p, s.q, s.w, s.x, s.Len());
    SameQuotientAndRemainder(r1, r2, s.g);
  }

  lemma BlocksFactor(s: Shape, na: nat, nb: nat)
    requires s.Ok(na, nb)
    ensures na + nb == s.g * s.Len() && s.g <= nb
  {
    ProductBounds(s.q, s.g);
  }

  lemma SameQuotientAndRemainder(r1: int, r2: int, g: int)
    requires g > 0 && r1 / g == r2 / g && r1 % g == r2 % g
    ensures r1 == r2
  {
    assert r1 == (r1 / g) * g + r1 % g;
    assert r2 == (r2 / g) * g + r2 % g;
  }

  lemma QuotientBound(r: int, g: int, m: int, n: int)
    requires g > 0 && 0 <= r < n && n == g * m
    ensures 0 <= r / g < m
  {
    assert (r / g - m) * g < 0;
    ProductBounds(r / g - m, g);
  }

  /** The i-th cycle starts at the i-th element of the second block, on turn 0. */
  lemma CycleStart(s: Shape, na: nat, nb: nat, i: int)
    requires s.Ok(na, nb) && 0 <= i < s.g
    ensures (na + i) % s.g == i && s.Turn(na + i) == 0 && na + i < na + nb
  {
    assert na + i == s.p * s.g + i;
    RemainderIs(na + i, s.p, i, s.g);
    assert (s.p - s.p) * s.w == 0;
    assert s.g * s.q >= s.g;
  }

  /** The cycle structure as two tables over relative positions: the cycle each belongs to and the
      turn on which it is filled. Each cycle has m positions, one for every turn. */
  ghost predicate Schedule(cycle: seq<int>, turn: seq<int>, na: nat, nb: nat, g: int, m: int) {
    && |cycle| == |turn| == na + nb && 0 < g <= nb && m > 0
    && (forall r :: 0 <= r < na + nb ==> 0 <= cycle[r] < g && 0 <= turn[r] < m)
    && (forall r :: 0 <= r < na + nb ==>
          cycle[Next(r, na, nb)] == cycle[r] && turn[Next(r, na, nb)] == if turn[r] + 1 == m then 0 else turn[r] + 1)
    && (forall c :: na <= c < na + g ==> cycle[c] == c - na && turn[c] == 0)
    && OnePerTurn(cycle, turn)
  }

  ghost predicate OnePerTurn(cycle: seq<int>, turn: seq<int>)
    requires |cycle| == |turn|
  {
    forall r1, r2 :: 0 <= r1 < |turn| && 0 <= r2 < |turn| && cycle[r1] == cycle[r2] && turn[r1] == turn[r2] ==> r1 == r2
  }

  lemma NoOtherAt(cycle: seq<int>, turn: seq<int>, at: int)
    requires |cycle| == |turn| && OnePerTurn(cycle, turn) && 0 <= at < |turn|
    ensures forall r :: 0 <= r < |turn| && cycle[r] == cycle[at] && turn[r] == turn[at] ==> r == at
  {
  }

  lemma ScheduleExists(s: Shape, na: nat, nb: nat) returns (cycle: seq<int>, turn: seq<int>)
    requires s.Ok(na, nb)
    ensures Schedule(cycle, turn, na, nb, s.g, s.Len())
  {
    cycle := seq(na + nb, r => r % s.g);
    turn := seq(na + nb, r => s.Turn(r));
    forall r | 0 <= r < na + nb
      ensures cycle[Next(r, na, nb)] == cycle[r]
      ensures turn[Next(r, na, nb)] == if turn[r] + 1 == s.Len() then 0 else turn[r] + 1
    {
      NextTurn(s, na, nb, r);
      WrapAround(s.Turn(r), s.Len());
    }
    forall r1, r2 | 0 <= r1 < na + nb && 0 <= r2 < na + nb && cycle[r1] == cycle[r2] && turn[r1] == turn[r2]
      ensures r1 == r2
    {
      TurnInjective(s, na, nb, r1, r2);
    }
    BlocksFactor(s, na, nb);
    forall c | na <= c < na + s.g
      ensures cycle[c] == c - na && turn[c] == 0
    {
      CycleStart(s, na, nb, c - na);
    }
  }

  lemma WrapAround(t: int, m: int)
    requires 0 <= t < m
    ensures (t + 1) % m == if t + 1 == m then 0 else t + 1
  {
    RemainderIs(t + 1, if t + 1 == m then 1 else 0, if t + 1 == m then 0 else t + 1, m);
  }

  /** gcd(na, nb) disjoint cycles of length (na + nb) / gcd(na, nb) cover the two blocks. */
  lemma CyclesCover(na: nat, nb: nat, g: int) returns (cycle: seq<int>, turn: seq<int>)
    requires na > 0 && nb > 0 && g == EuclidCoefficients(na, nb).0
    ensures |cycle| == |turn| == na + nb && 0 < g <= nb && (na + nb) / g > 0
    ensures Schedule(cycle, turn, na, nb, g, (na + nb) / g)
  {
    var s := ShapeOf(na, nb);
    BlocksFactor(s, na, nb);
    RemainderIs(na + nb, s.Len(), 0, g);
    cycle, turn := ScheduleExists(s, na, nb);
  }

  // ---------- The array algorithm ----------

  /** The array when exactly the cycles below i are done, seen from its first contents `was`. */
  ghost predicate CyclesDone<T>(a: seq<T>, was: seq<T>, lo: nat, na: nat, nb: nat, cycle: seq<int>, i: int)
    requires |a| == |was| && lo + na + nb <= |a| && |cycle| == na + nb
  {
    && (forall k :: 0 <= k < lo || lo + na + nb <= k < |a| ==> a[k] == was[k])
    && forall r :: 0 <= r < na + nb ==>
         a[lo + r] == (if cycle[r] < i then was[lo + Prev(r, na, nb)] else was[lo + r])
  }

  /** The array after the first j swaps of cycle i. */
  ghost predicate MidCycle<T>(a: seq<T>, was: seq<T>, lo: nat, na: nat, nb: nat, cycle: seq<int>, turn: seq<int>,
                              i: int, j: int)
    requires |a| == |was| && lo + na + nb <= |a| && |cycle| == |turn| == na + nb
  {
    && (forall k :: 0 <= k < lo || lo + na + nb <= k < |a| ==> a[k] == was[k])
    && forall r :: 0 <= r < na + nb && r != na + i ==>
         a[lo + r] == (if cycle[r] < i || (cycle[r] == i && turn[r] <= j) then was[lo + Prev(r, na, nb)]
                       else was[lo + r])
  }

  /** The state inside cycle i: j swaps done, the displaced element parked at the cycle's start. */
  ghost predicate Parked<T>(a: seq<T>, was: seq<T>, lo: nat, na: nat, nb: nat, cycle: seq<int>, turn: seq<int>,
                            i: int, j: int, m: int, at: int)
    requires |a| == |was| && lo + na + nb <= |a| && |cycle| == |turn| == na + nb && 0 <= i < nb
  {
    && 0 <= at < na + nb && cycle[at] == i && turn[at] == (if j == m then 0 else j)
    && MidCycle(a, was, lo, na, nb, cycle, turn, i, j)
    && a[lo + na + i] == was[lo + if j == m then Prev(na + i, na, nb) else at]
  }

  lemma SwapStep<T>(a: seq<T>, was: seq<T>, lo: nat, na: nat, nb: nat, cycle: seq<int>, turn: seq<int>,
                    i: int, j: int, g: int, m: int, at: int)
    requires Schedule(cycle, turn, na, nb, g, m) && 0 <= i < g && 0 <= j < m
    requires lo + na + nb <= |a| == |was| && Parked(a, was, lo, na, nb, cycle, turn, i, j, m, at)
    ensures var to := Next(at, na, nb);
            var c := lo + na + i;
            Parked(a[lo + to := a[c]][c := a[lo + to]], was, lo, na, nb, cycle, turn, i, j + 1, m, to)
  {
    hide OnePerTurn;
    var to := Next(at, na, nb);
    var c := na + i;
    NoOtherAt(cycle, turn, to);
    assert cycle[c] == i && turn[c] == 0;
    assert cycle[to] == i && turn[to] == if j + 1 == m then 0 else j + 1;
    assert Prev(to, na, nb) == at;
    var b := a[lo + to := a[lo + c]][lo + c := a[lo + to]];
    assert j + 1 == m ==> to == c;
    forall r | 0 <= r < na + nb && r != c
      ensures b[lo + r] == if cycle[r] < i || (cycle[r] == i && turn[r] <= j + 1) then was[lo + Prev(r, na, nb)]
                           else was[lo + r]
    {
      if r != to {
        assert b[lo + r] == a[lo + r];
      }
    }
  }

  method Swap<T>(a: array<T>, i: nat, j: nat)
    requires i < a.Length && j < a.Length
    modifies a
    ensures a[..] == old(a[..])[i := old(a[j])][j := old(a[i])]
  {
    var swap := a[i];
    a[i] := a[j];
    a[j] := swap;
  }

  /** One swap cycle: fills every position of cycle i from its predecessor. */
  method RotateCycle<T>(a: array<T>, lo: nat, na: nat, nb: nat, i: nat, cyclelen: int,
                        ghost cycle: seq<int>, ghost turn: seq<int>, ghost g: int, ghost was: seq<T>)
    requires |cycle| == |turn| == na + nb && 0 <= i < g <= nb && cyclelen > 0
    requires Schedule(cycle, turn, na, nb, g, cyclelen)
    requires lo + na + nb <= a.Length == |was| && i < g
    requires CyclesDone(a[..], was, lo, na, nb, cycle, i)
    modifies a
    ensures CyclesDone(a[..], was, lo, na, nb, cycle, i + 1)
  {
    hide Schedule, MidCycle, CyclesDone;
    var mid := lo + na;
    var cstart := mid + i;
    var pos := cstart;
    CycleBegins(a[..], was, lo, na, nb, cycle, turn, i, g, cyclelen);
    for j := 0 to cyclelen
      invariant lo <= pos < lo + na + nb
      invariant Parked(a[..], was, lo, na, nb, cycle, turn, i, j, cyclelen, pos - lo)
    {
      SwapStep(a[..], was, lo, na, nb, cycle, turn, i, j, g, cyclelen, pos - lo);
      if pos >= mid {
        pos := pos - na;
      } else {
        pos := pos + nb;
      }
      Swap(a, pos, cstart);
    }
    CycleEnds(a[..], was, lo, na, nb, cycle, turn, i, g, cyclelen, pos - lo);
  }

  lemma CycleBegins<T>(a: seq<T>, was: seq<T>, lo: nat, na: nat, nb: nat, cycle: seq<int>, turn: seq<int>,
                       i: nat, g: int, m: int)
    requires Schedule(cycle, turn, na, nb, g, m) && i < g
    requires lo + na + nb <= |a| == |was| && CyclesDone(a, was, lo, na, nb, cycle, i)
    ensures Parked(a, was, lo, na, nb, cycle, turn, i, 0, m, na + i)
  {
    assert cycle[na + i] == i && turn[na + i] == 0;
    assert a[lo + (na + i)] == was[lo + (na + i)];
  }

  lemma CycleEnds<T>(a: seq<T>, was: seq<T>, lo: nat, na: nat, nb: nat, cycle: seq<int>, turn: seq<int>,
                     i: nat, g: int, m: int, at: int)
    requires Schedule(cycle, turn, na, nb, g, m) && i < g
    requires lo + na + nb <= |a| == |was| && Parked(a, was, lo, na, nb, cycle, turn, i, m, m, at)
    ensures CyclesDone(a, was, lo, na, nb, cycle, i + 1)
  {
    forall r | 0 <= r < na + nb
      ensures a[lo + r] == if cycle[r] < i + 1 then was[lo + Prev(r, na, nb)] else was[lo + r]
    {
      assert cycle[na + i] == i;
      if r == na + i {
        assert a[lo + na + i] == was[lo + Prev(na + i, na, nb)];
      }
    }
  }

  /** Exchanges the block [lo, mid) with the block [mid, hi), keeping the order inside each. */
  method PermuteArgs<T>(a: array<T>, lo: nat, mid: nat, hi: nat)
    requires lo < mid < hi <= a.Length
    modifies a
    ensures a[..] == Exchanged(old(a[..]), lo, mid, hi)
  {
    var na, nb := mid - lo, hi - mid;
    var ncycle := Gcd(na, nb);
    ghost var cycle, turn := CyclesCover(na, nb, ncycle);
    ghost var was := a[..];
    var cyclelen := (hi - lo) / ncycle;
    NoCycleDone(a[..], lo, na, nb, cycle, turn, ncycle);
    hide EuclidCoefficients, IsGcd, Schedule, CyclesDone;
    for i := 0 to ncycle
      invariant CyclesDone(a[..], was, lo, na, nb, cycle, i)
    {
      RotateCycle(a, lo, na, nb, i, cyclelen, cycle, turn, ncycle, was);
    }
    AllCyclesExchange(a[..], was, lo, na, nb, cycle, turn, ncycle);
  }

  lemma NoCycleDone<T>(a: seq<T>, lo: nat, na: nat, nb: nat, cycle: seq<int>, turn: seq<int>, g: int)
    requires lo + na + nb <= |a| && |cycle| == na + nb && g > 0 && Schedule(cycle, turn, na, nb, g, (na + nb) / g)
    ensures CyclesDone(a, a, lo, na, nb, cycle, 0)
  {
  }

  lemma AllCyclesExchange<T>(a: seq<T>, was: seq<T>, lo: nat, na: nat, nb: nat, cycle: seq<int>, turn: seq<int>,
                             g: int)
    requires |a| == |was| && lo + na + nb <= |a| && |cycle| == na + nb
    requires g > 0 && Schedule(cycle, turn, na, nb, g, (na + nb) / g)
    requires CyclesDone(a, was, lo, na, nb, cycle, g)
    ensures a == Exchanged(was, lo, lo + na, lo + na + nb)
  {
    var e := Exchanged(was, lo, lo + na, lo + na + nb);
    forall k | 0 <= k < |a|
      ensures a[k] == e[k]
    {
      if lo <= k < lo + na + nb {
        assert a[lo + (k - lo)] == was[lo + Prev(k - lo, na, nb)];
      }
    }
  }
}
