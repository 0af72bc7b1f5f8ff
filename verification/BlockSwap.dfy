/**
 Exchange of two adjacent blocks of an array, in place, by following cycles
 (`gcd` and `permute_args` of lib/util/getopt_long.c).

 Positions are offsets from the start of the first block.  With blocks of
 lengths k and m, the walk moves from p to p - k or p + m, that is, by +m modulo
 n = k + m, and the cell it reaches receives the content of the cell it left.
 */
module BlockSwap {
  import opened Numbers

  ghost predicate Combines(g: int, a: int, b: int, u: int, v: int) {
    g == u * a + v * b
  }

  /** g is a positive common divisor of a and b, and an integer combination of them. */
  ghost predicate IsGcd(g: int, a: int, b: int) {
    && 0 < g
    && a % g == 0
    && b % g == 0
    && exists u, v :: Combines(g, a, b, u, v)
  }

  lemma MultipleMod(x: int, d: int)
    requires d > 0
    ensures (d * x) % d == 0
  {
    var q, r := (d * x) / d, (d * x) % d;
    assert d * (x - q) == r;
    assert x - q >= 1 ==> d * (x - q) >= d;
    assert x - q <= -1 ==> d * (x - q) <= -d;
  }

  lemma ModExact(x: int, d: int) returns (q: int)
    requires d > 0 && x % d == 0
    ensures x == d * q
  {
    q := x / d;
  }

  lemma PositiveMultiple(d: int, x: int)
    requires d > 0 && d * x > 0
    ensures d * x >= d
  {
    assert x <= 0 ==> d * x <= 0;
    assert x >= 1 ==> d * x >= d;
  }

  lemma CombineMultiples(d: int, u: int, p: int, v: int, q: int)
    ensures u * (d * p) + v * (d * q) == d * (u * p + v * q)
  {
    assert u * (d * p) == d * (u * p);
    assert v * (d * q) == d * (v * q);
  }

  /** IsGcd determines g: every common divisor divides it, hence it is the greatest. */
  lemma GcdIsGreatest(g: int, a: int, b: int, d: int)
    requires IsGcd(g, a, b)
    requires d > 0 && a % d == 0 && b % d == 0
    ensures g % d == 0 && d <= g
  {
    var u, v :| Combines(g, a, b, u, v);
    var p := ModExact(a, d);
    var q := ModExact(b, d);
    CombineMultiples(d, u, p, v, q);
    var e := u * p + v * q;
    MultipleMod(e, d);
    PositiveMultiple(d, e);
  }

  lemma GcdStep(g: int, a: int, b: int)
    requires b > 0 && IsGcd(g, b, a % b)
    ensures IsGcd(g, a, b)
  {
    var u, v :| Combines(g, b, a % b, u, v);
    var q := a / b;
    assert a % b == a - b * q;
    assert Combines(g, a, b, v, u - v * q) by {
      assert v * (a - b * q) == v * a - v * q * b;
    }
    var x := ModExact(b, g);
    var y := ModExact(a % b, g);
    assert a == g * (x * q + y) by {
      assert g * (x * q) == (g * x) * q;
    }
    MultipleMod(x * q + y, g);
  }

  /** The code divides by b before anything else, so b must not be zero. */
  method Gcd(a0: int, b0: int) returns (g: int)
    requires a0 >= 0 && b0 > 0
    ensures IsGcd(g, a0, b0)
  {
    var a, b := a0, b0;
    var c := a % b;
    while c != 0
      invariant 0 <= c < b && c == a % b
      invariant forall h :: IsGcd(h, a, b) ==> IsGcd(h, a0, b0)
      decreases c
    {
      forall h | IsGcd(h, b, c) ensures IsGcd(h, a0, b0) {
        GcdStep(h, a, b);
      }
      a := b;
      b := c;
      c := a % b;
    }
    assert Combines(b, a, b, 0, 1);
    assert b % b == 0 by { assert b == b * 1; MultipleMod(1, b); }
    return b;
  }

  // --- the walk ---------------------------------------------------------

  function Next(k: nat, m: nat, p: nat): (q: nat)
    requires p < k + m
    ensures q < k + m
  {
    if p >= k then p - k else p + m
  }

  /** Where the content of position q has to come from. */
  function Source(k: nat, m: nat, q: nat): (p: nat)
    requires q < k + m
    ensures p < k + m && Next(k, m, p) == q
  {
    if q < m then q + k else q - m
  }

  /** Position after t steps of the walk that starts at c. */
  function Orbit(k: nat, m: nat, c: nat, t: nat): (p: nat)
    requires c < k + m
    ensures p < k + m
    decreases t
  {
    if t == 0 then c else Next(k, m, Orbit(k, m, c, t - 1))
  }

  lemma {:induction false} OrbitCongruence(k: nat, m: nat, c: nat, t: nat) returns (w: int)
    requires c < k + m
    ensures Orbit(k, m, c, t) == c + t * m - w * (k + m)
    decreases t
  {
    if t == 0 {
      w := 0;
    } else {
      w := OrbitCongruence(k, m, c, t - 1);
      assert t * m == (t - 1) * m + m;
      if Orbit(k, m, c, t - 1) >= k {
        assert (w + 1) * (k + m) == w * (k + m) + (k + m);
        w := w + 1;
      }
    }
  }

  /** Two positions that are congruent modulo n are equal. */
  lemma SameResidue(n: int, p: int, q: int, z: int)
    requires 0 <= p < n && 0 <= q < n && p == q + n * z
    ensures p == q
  {
    assert z >= 1 ==> n * z >= n;
    assert z <= -1 ==> n * z <= -n;
  }

  /** n = k + m split into g cycles of length len. */
  ghost predicate Cycles(k: nat, m: nat, g: int, len: nat) {
    && k > 0 && m > 0
    && IsGcd(g, k, m)
    && g * len == k + m
  }

  lemma OrbitReturns(k: nat, m: nat, c: nat, g: int, len: nat)
    requires Cycles(k, m, g, len) && c < k + m
    ensures Orbit(k, m, c, len) == c
  {
    var w := OrbitCongruence(k, m, c, len);
    var y := ModExact(m, g);
    FullTurn(k + m, len, g, y, w);
    SameResidue(k + m, Orbit(k, m, c, len), c, y - w);
  }

  lemma FullTurn(n: int, len: int, g: int, y: int, w: int)
    requires g * len == n
    ensures len * (g * y) - w * n == n * (y - w)
  {
    assert len * (g * y) == (g * len) * y;
  }

  lemma OrbitInjective(k: nat, m: nat, c: nat, g: int, len: nat, s: nat, t: nat)
    requires Cycles(k, m, g, len) && c < k + m
    requires s < t < len
    ensures Orbit(k, m, c, s) != Orbit(k, m, c, t)
  {
    if Orbit(k, m, c, s) == Orbit(k, m, c, t) {
      var ws := OrbitCongruence(k, m, c, s);
      var wt := OrbitCongruence(k, m, c, t);
      var u, v :| Combines(g, k, m, u, v);
      assert (t - s) * m == (wt - ws) * (k + m) by {
        assert (t - s) * m == t * m - s * m;
        assert (wt - ws) * (k + m) == wt * (k + m) - ws * (k + m);
      }
      DivisibleByLength(k, m, g, len, u, v, t - s, wt - ws);
    }
  }

  /** d * m a multiple of k + m forces d to be a multiple of the cycle length. */
  lemma DivisibleByLength(k: nat, m: nat, g: int, len: nat, u: int, v: int, d: nat, z: int)
    requires g > 0 && g * len == k + m && Combines(g, k, m, u, v)
    requires d * m == z * (k + m)
    ensures d == 0 || d >= len
  {
    var e := d * u + (v - u) * z;
    BezoutTimes(k, m, u, v, d, z);
    assert g * (len * e) == (g * len) * e;
    CancelFactor(g, d, len * e);
    if e >= 1 {
      MulMono(1, e, len);
    } else {
      MulMono(e, 0, len);
    }
  }

  lemma BezoutTimes(k: int, m: int, u: int, v: int, d: int, z: int)
    requires d * m == z * (k + m)
    ensures (u * k + v * m) * d == (k + m) * (d * u + (v - u) * z)
  {
    assert (u * k + v * m) * d == (d * u) * (k + m) + (v - u) * (d * m);
    assert (v - u) * (z * (k + m)) == (k + m) * ((v - u) * z);
  }

  lemma CancelFactor(g: int, x: int, y: int)
    requires g > 0 && g * x == g * y
    ensures x == y
  {
    assert g * (x - y) == 0;
  }

  /** Every position congruent to c modulo g lies on the cycle of c. */
  lemma OrbitReaches(k: nat, m: nat, c: nat, g: int, len: nat, p: nat) returns (t: nat)
    requires Cycles(k, m, g, len) && c < k + m && p < k + m
    requires (p - c) % g == 0
    ensures t < len && Orbit(k, m, c, t) == p
  {
    var u, v :| Combines(g, k, m, u, v);
    var e := ModExact(p - c, g);
    var y := ModExact(m, g);
    var h;
    t, h := DivideByLength(e * (v - u), g, len);
    var w := OrbitCongruence(k, m, c, t);
    ReachIdentity(k, m, g, len, u, v, e, y, t, h);
    var x := e * u + y * h;
    assert (k + m) * (-x - w) == -((k + m) * x) - w * (k + m);
    SameResidue(k + m, Orbit(k, m, c, t), p, -x - w);
  }

  lemma DivideByLength(x: int, g: int, len: nat) returns (t: nat, h: int)
    requires g > 0 && g * len > 0
    ensures x == len * h + t && t < len
  {
    assert len > 0;
    h, t := x / len, x % len;
  }

  lemma ReachIdentity(k: int, m: int, g: int, len: int, u: int, v: int, e: int, y: int, t: int, h: int)
    requires g == u * k + v * m && m == g * y && g * len == k + m
    requires e * (v - u) == len * h + t
    ensures t * m == g * e - (k + m) * (e * u + y * h)
  {
    assert t * m == (e * (v - u)) * m - (len * h) * m;
    assert (len * h) * (g * y) == (g * len) * (y * h);
    assert (e * (v - u)) * m == e * (u * k + v * m) - (k + m) * (e * u);
  }

  // --- the exchange -----------------------------------------------------

  /** The cycle a position belongs to: the walk never changes the residue modulo g. */
  function Class(g: int, p: nat): (i: nat)
    requires 0 < g
    ensures i < g
  {
    p % g
  }

  lemma ClassOf(k: nat, i: nat, g: int, p: nat)
    requires 0 < g && k % g == 0 && i < g
    ensures (p - (k + i)) % g == 0 <==> Class(g, p) == i
  {
    var y := ModExact(k, g);
    var q, r := p / g, p % g;
    assert p - (k + i) == g * (q - y) + (r - i);
    if r == i {
      MultipleMod(q - y, g);
    } else if (p - (k + i)) % g == 0 {
      var x := ModExact(p - (k + i), g);
      assert r == i + g * (x - (q - y));
      SameResidue(g, r, i, x - (q - y));
    }
  }

  lemma CommonFactor(g: int, x: int, y: int, t: int, w: int)
    ensures t * (g * y) - w * (g * x + g * y) == g * (t * y - w * (x + y))
  {
    assert t * (g * y) == g * (t * y);
    assert w * (g * x + g * y) == g * (w * (x + y));
  }

  /** The walk never leaves its class. */
  lemma {:induction false} OrbitClass(k: nat, m: nat, i: nat, g: int, t: nat)
    requires 0 < g && k % g == 0 && m % g == 0 && i < g <= m
    ensures Class(g, Orbit(k, m, k + i, t)) == i
  {
    var w := OrbitCongruence(k, m, k + i, t);
    var x := ModExact(k, g);
    var y := ModExact(m, g);
    var z := t * y - w * (x + y);
    CommonFactor(g, x, y, t, w);
    MultipleMod(z, g);
    ClassOf(k, i, g, Orbit(k, m, k + i, t));
  }

  /** Source stays inside the class. */
  lemma SourceClass(k: nat, m: nat, g: int, len: nat, q: nat)
    requires Cycles(k, m, g, len) && q < k + m
    ensures 0 < g && Class(g, Source(k, m, q)) == Class(g, q)
  {
    var x := ModExact(if q < m then k else m, g);
    var d, r := q / g, q % g;
    assert g * (d + x) == g * d + g * x && g * (d - x) == g * d - g * x;
    RemainderUnique(Source(k, m, q), g, if q < m then d + x else d - x, r);
  }

  lemma RemainderUnique(p: int, g: int, d: int, r: int)
    requires 0 < g && p == g * d + r && 0 <= r < g
    ensures p % g == r
  {
    assert p == g * (p / g) + p % g;
    assert p % g == r + g * (d - p / g);
    SameResidue(g, p % g, r, d - p / g);
  }

  /** Shape of the problem: the blocks lie inside s, and their cycles are as computed. */
  ghost predicate Setup<T>(s: seq<T>, start: nat, k: nat, m: nat, g: int, len: nat) {
    Cycles(k, m, g, len) && start + k + m <= |s|
  }

  /** Contents after j iterations of the inner loop for the cycle starting at offset c. */
  ghost function Walked<T>(s: seq<T>, start: nat, k: nat, m: nat, c: nat, j: nat): (r: seq<T>)
    requires start + k + m <= |s| && c < k + m
    ensures |r| == |s|
    decreases j
  {
    if j == 0 then s else
    var w := Walked(s, start, k, m, c, j - 1);
    var pos := start + Orbit(k, m, c, j);
    w[pos := w[start + c]][start + c := w[pos]]
  }

  /** The cell at the start of the cycle always holds what the walk last picked up. */
  lemma {:induction false} WalkedHead<T>(s: seq<T>, start: nat, k: nat, m: nat, g: int, len: nat, c: nat, j: nat)
    requires Setup(s, start, k, m, g, len) && c < k + m && j < len
    ensures Walked(s, start, k, m, c, j)[start + c] == s[start + Orbit(k, m, c, j)]
    decreases j
  {
    if j > 0 {
      forall t: nat | t < j ensures Orbit(k, m, c, j) != Orbit(k, m, c, t) {
        OrbitInjective(k, m, c, g, len, t, j);
      }
      assert Orbit(k, m, c, 0) == c;
      WalkedAhead(s, start, k, m, c, j - 1, Orbit(k, m, c, j));
    }
  }

  /** A cell the walk has not reached yet is unchanged. */
  lemma {:induction false} WalkedAhead<T>(s: seq<T>, start: nat, k: nat, m: nat, c: nat, j: nat, p: nat)
    requires start + k + m <= |s| && c < k + m && p < k + m
    requires forall t: nat | t <= j :: Orbit(k, m, c, t) != p
    ensures Walked(s, start, k, m, c, j)[start + p] == s[start + p]
    decreases j
  {
    assert Orbit(k, m, c, 0) == c;
    if j > 0 {
      WalkedAhead(s, start, k, m, c, j - 1, p);
    }
  }

  /** A cell the walk has reached holds the content of the cell before it. */
  lemma {:induction false} WalkedBehind<T>(s: seq<T>, start: nat, k: nat, m: nat, g: int, len: nat, c: nat, j: nat, t: nat)
    requires Setup(s, start, k, m, g, len) && c < k + m
    requires 1 <= t <= j <= len && t < len
    ensures Walked(s, start, k, m, c, j)[start + Orbit(k, m, c, t)] == s[start + Orbit(k, m, c, t - 1)]
    decreases j
  {
    hide Cycles, Next;
    OrbitInjective(k, m, c, g, len, 0, t);
    if t == j {
      WalkedHead(s, start, k, m, g, len, c, j - 1);
    } else {
      WalkedBehind(s, start, k, m, g, len, c, j - 1, t);
      if j < len {
        OrbitInjective(k, m, c, g, len, t, j);
      } else {
        OrbitReturns(k, m, c, g, len);
      }
    }
  }

  /** A whole cycle moves every cell of its class and no other. */
  lemma CycleMoves<T>(s: seq<T>, start: nat, k: nat, m: nat, g: int, len: nat, i: nat, q: nat)
    requires Setup(s, start, k, m, g, len) && i < g <= m && q < k + m
    ensures Walked(s, start, k, m, k + i, len)[start + q]
         == s[start + if Class(g, q) == i then Source(k, m, q) else q]
  {
    var c := k + i;
    assert 0 < g && k % g == 0 && m % g == 0;
    hide Cycles, Class;
    if Class(g, q) != i {
      forall t: nat ensures Orbit(k, m, c, t) != q {
        OrbitClass(k, m, i, g, t);
      }
      WalkedAhead(s, start, k, m, c, len, q);
    } else {
      ClassOf(k, i, g, q);
      var t := OrbitReaches(k, m, c, g, len, q);
      CycleMovesOn(s, start, k, m, g, len, c, t);
    }
  }

  /** The cell reached after t steps ends up with the content of the cell before it on the cycle. */
  lemma CycleMovesOn<T>(s: seq<T>, start: nat, k: nat, m: nat, g: int, len: nat, c: nat, t: nat)
    requires Setup(s, start, k, m, g, len) && c < k + m && t < len
    ensures Walked(s, start, k, m, c, len)[start + Orbit(k, m, c, t)]
         == s[start + Source(k, m, Orbit(k, m, c, t))]
  {
    hide Cycles;
    OrbitReturns(k, m, c, g, len);
    if t == 0 {
      NextInverse(k, m, Orbit(k, m, c, len - 1));
      WalkedHead(s, start, k, m, g, len, c, len - 1);
    } else {
      NextInverse(k, m, Orbit(k, m, c, t - 1));
      WalkedBehind(s, start, k, m, g, len, c, len, t);
    }
  }

  lemma NextInverse(k: nat, m: nat, p: nat)
    requires p < k + m
    ensures Source(k, m, Next(k, m, p)) == p
  {
  }

  lemma {:induction false} WalkedOutside<T>(s: seq<T>, start: nat, k: nat, m: nat, c: nat, j: nat, x: nat)
    requires start + k + m <= |s| && c < k + m
    requires x < |s| && !(start <= x < start + k + m)
    ensures Walked(s, start, k, m, c, j)[x] == s[x]
    decreases j
  {
    if j > 0 {
      WalkedOutside(s, start, k, m, c, j - 1, x);
    }
  }

  /** Contents after the first i cycles. */
  ghost function Turned<T>(s: seq<T>, start: nat, k: nat, m: nat, len: nat, i: nat): (r: seq<T>)
    requires start + k + m <= |s| && i <= m
    ensures |r| == |s|
    decreases i
  {
    if i == 0 then s else Walked(Turned(s, start, k, m, len, i - 1), start, k, m, k + i - 1, len)
  }

  lemma {:induction false} TurnedInside<T>(s: seq<T>, start: nat, k: nat, m: nat, g: int, len: nat, i: nat, q: nat)
    requires Setup(s, start, k, m, g, len) && i <= g <= m && q < k + m
    ensures Turned(s, start, k, m, len, i)[start + q]
         == s[start + if Class(g, q) < i then Source(k, m, q) else q]
    decreases i
  {
    assert 0 < g && |s| >= start + k + m;
    hide Cycles, Walked, Source, Class, Setup;
    if i > 0 {
      var before := Turned(s, start, k, m, len, i - 1);
      CycleMoves(before, start, k, m, g, len, i - 1, q);
      var p := q;
      if Class(g, q) == i - 1 {
        SourceClass(k, m, g, len, q);
        p := Source(k, m, q);
      }
      TurnedInside(s, start, k, m, g, len, i - 1, p);
    }
  }

  lemma {:induction false} TurnedOutside<T>(s: seq<T>, start: nat, k: nat, m: nat, len: nat, i: nat, x: nat)
    requires start + k + m <= |s| && i <= m
    requires x < |s| && !(start <= x < start + k + m)
    ensures Turned(s, start, k, m, len, i)[x] == s[x]
    decreases i
  {
    if i > 0 {
      TurnedOutside(s, start, k, m, len, i - 1, x);
      WalkedOutside(Turned(s, start, k, m, len, i - 1), start, k, m, k + i - 1, len, x);
    }
  }

  /** s with the adjacent blocks [start, mid) and [mid, end) exchanged. */
  function Exchanged<T>(s: seq<T>, start: nat, mid: nat, end: nat): (r: seq<T>)
    requires start <= mid <= end <= |s|
    ensures |r| == |s|
  {
    s[..start] + s[mid..end] + s[start..mid] + s[end..]
  }

  /** All g cycles together exchange the two blocks. */
  lemma TurnedIsExchanged<T>(s: seq<T>, start: nat, k: nat, m: nat, g: int, len: nat)
    requires Setup(s, start, k, m, g, len) && g <= m
    ensures Turned(s, start, k, m, len, g) == Exchanged(s, start, start + k, start + k + m)
  {
    var r := Turned(s, start, k, m, len, g);
    forall x: nat | x < |s| ensures r[x] == Exchanged(s, start, start + k, start + k + m)[x] {
      if start <= x < start + k + m {
        TurnedInside(s, start, k, m, g, len, g, x - start);
      } else {
        TurnedOutside(s, start, k, m, len, g, x);
      }
    }
  }

  method Swap<T>(a: array<T>, i: nat, j: nat)
    requires i < a.Length && j < a.Length
    modifies a
    ensures a[..] == old(a[..][i := a[j]][j := a[i]])
  {
    var swap := a[i];
    a[i] := a[j];
    a[j] := swap;
  }

  /** The inner loop: one walk around the cycle that starts i cells into the second block. */
  method FollowCycle<T>(nargv: array<T>, start: nat, nnonopts: nat, nopts: nat, i: nat, cyclelen: nat)
    requires i < nopts && start + nnonopts + nopts <= nargv.Length
    modifies nargv
    ensures nargv[..] == Walked(old(nargv[..]), start, nnonopts, nopts, nnonopts + i, cyclelen)
  {
    hide Walked;
    ghost var s := nargv[..];
    var cstart := start + nnonopts + i;
    var pos := cstart;
    WalkedNext(s, start, nnonopts, nopts, nnonopts + i, 0);
    for j := 0 to cyclelen
      invariant pos == start + Orbit(nnonopts, nopts, nnonopts + i, j)
      invariant nargv[..] == Walked(s, start, nnonopts, nopts, nnonopts + i, j)
    {
      WalkedNext(s, start, nnonopts, nopts, nnonopts + i, j);
      if pos >= start + nnonopts {
        pos := pos - nnonopts;
      } else {
        pos := pos + nopts;
      }
      Swap(nargv, pos, cstart);
    }
  }

  lemma WalkedNext<T>(s: seq<T>, start: nat, k: nat, m: nat, c: nat, j: nat)
    requires start + k + m <= |s| && c < k + m
    ensures Walked(s, start, k, m, c, 0) == s
    ensures var w := Walked(s, start, k, m, c, j);
            var pos := start + Orbit(k, m, c, j + 1);
            Walked(s, start, k, m, c, j + 1) == w[pos := w[start + c]][start + c := w[pos]]
  {
  }

  /**
   permute_args: the nested loops leave the two blocks exchanged, each in its
   original order, and everything else in place.  Both blocks must be non-empty,
   or gcd would divide by zero or the loops would not cover the blocks.
   */
  method PermuteArgs<T>(nargv: array<T>, nonoptStart: nat, nonoptEnd: nat, optEnd: nat)
    requires nonoptStart < nonoptEnd < optEnd <= nargv.Length
    modifies nargv
    ensures nargv[..] == Exchanged(old(nargv[..]), nonoptStart, nonoptEnd, optEnd)
  {
    hide IsGcd, Cycles, Exchanged, Walked;
    var nnonopts, nopts := nonoptEnd - nonoptStart, optEnd - nonoptEnd;
    var ncycle := Gcd(nnonopts, nopts);
    CycleLength(nnonopts, nopts, ncycle);
    var cyclelen := (optEnd - nonoptStart) / ncycle;
    ghost var s := nargv[..];
    for i := 0 to ncycle
      invariant nargv[..] == Turned(s, nonoptStart, nnonopts, nopts, cyclelen, i)
    {
      FollowCycle(nargv, nonoptStart, nnonopts, nopts, i, cyclelen);
    }
    TurnedIsExchanged(s, nonoptStart, nnonopts, nopts, ncycle, cyclelen);
  }

  lemma CycleLength(k: nat, m: nat, g: int)
    requires k > 0 && m > 0 && IsGcd(g, k, m)
    ensures 0 < g <= m && 0 <= (k + m) / g && Cycles(k, m, g, (k + m) / g)
  {
    var x := ModExact(k, g);
    var y := ModExact(m, g);
    assert y <= 0 ==> g * y <= 0;
    assert y >= 1 ==> g * y >= g;
    assert x <= 0 ==> g * x <= 0;
    assert k + m == g * (x + y);
    var q := (k + m) / g;
    MultipleMod(x + y, g);
    assert k + m == g * q;
    CancelFactor(g, q, x + y);
  }
}
