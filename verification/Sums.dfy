/** Sums of integers over finite sets of keys. */
module Sums {

  ghost function Sum<T(!new)>(keys: set<T>, f: map<T, int>): int
    requires keys <= f.Keys
  {
    if keys == {} then 0 else
      var x :| x in keys;
      f[x] + Sum(keys - {x}, f)
  }

  /** Any element may be split off first. */
  lemma {:induction false} SumSplit<T(!new)>(keys: set<T>, f: map<T, int>, x: T)
    requires keys <= f.Keys && x in keys
    ensures Sum(keys, f) == f[x] + Sum(keys - {x}, f)
    decreases |keys|
  {
    var y :| y in keys && Sum(keys, f) == f[y] + Sum(keys - {y}, f);
    if y != x {
      SumSplit(keys - {y}, f, x);
      SumSplit(keys - {x}, f, y);
      assert keys - {y} - {x} == keys - {x} - {y};
    }
  }

  lemma {:induction false} SumCongruent<T(!new)>(keys: set<T>, f: map<T, int>, g: map<T, int>)
    requires keys <= f.Keys && keys <= g.Keys
    requires forall x :: x in keys ==> f[x] == g[x]
    ensures Sum(keys, f) == Sum(keys, g)
    decreases |keys|
  {
    if keys != {} {
      var x :| x in keys;
      SumSplit(keys, f, x);
      SumSplit(keys, g, x);
      SumCongruent(keys - {x}, f, g);
    }
  }

  lemma SumUpdate<T(!new)>(keys: set<T>, f: map<T, int>, x: T, v: int)
    requires keys <= f.Keys && x in keys
    ensures Sum(keys, f[x := v]) == Sum(keys, f) - f[x] + v
  {
    SumSplit(keys, f, x);
    SumSplit(keys, f[x := v], x);
    SumCongruent(keys - {x}, f, f[x := v]);
  }

  lemma {:induction false} SumZero<T(!new)>(keys: set<T>, f: map<T, int>)
    requires keys <= f.Keys && forall x :: x in keys ==> f[x] == 0
    ensures Sum(keys, f) == 0
    decreases |keys|
  {
    if keys != {} {
      var x :| x in keys;
      SumSplit(keys, f, x);
      SumZero(keys - {x}, f);
    }
  }

  lemma {:induction false} SumNonNegative<T(!new)>(keys: set<T>, f: map<T, int>)
    requires keys <= f.Keys && forall x :: x in keys ==> f[x] >= 0
    ensures Sum(keys, f) >= 0
    decreases |keys|
  {
    if keys != {} {
      var x :| x in keys;
      SumSplit(keys, f, x);
      SumNonNegative(keys - {x}, f);
    }
  }

  lemma {:induction false} SumAtMost<T(!new)>(keys: set<T>, f: map<T, int>, bound: int)
    requires keys <= f.Keys && forall x :: x in keys ==> f[x] <= bound
    ensures Sum(keys, f) <= |keys| * bound
    decreases |keys|
  {
    if keys != {} {
      var x :| x in keys;
      SumSplit(keys, f, x);
      SumAtMost(keys - {x}, f, bound);
    }
  }

  lemma {:induction false} SumDifference<T(!new)>(keys: set<T>, f: map<T, int>, g: map<T, int>,
                                                 a: map<T, int>, b: map<T, int>)
    requires keys <= f.Keys && keys <= g.Keys && keys <= a.Keys && keys <= b.Keys
    requires forall x :: x in keys ==> f[x] - g[x] == a[x] - b[x]
    ensures Sum(keys, f) - Sum(keys, g) == Sum(keys, a) - Sum(keys, b)
    decreases |keys|
  {
    if keys != {} {
      var x :| x in keys;
      SumSplit(keys, f, x); SumSplit(keys, g, x); SumSplit(keys, a, x); SumSplit(keys, b, x);
      SumDifference(keys - {x}, f, g, a, b);
    }
  }

  ghost function Squares<T(!new)>(f: map<T, int>): map<T, int>
  {
    map x | x in f :: f[x] * f[x]
  }

  /** Convexity of the square: going from x to y costs at least (2 * low + 1) per unit. */
  lemma StepCost(x: int, y: int, low: int)
    requires low <= x && (y < x ==> x <= low + 1)
    ensures y * y >= x * x + (2 * low + 1) * (y - x)
  {
    var d := y - x;
    assert y * y == x * x + 2 * x * d + d * d;
    if d > 0 {
      assert d * d >= d && x * d >= low * d;
    } else if d < 0 {
      var e := -d;
      assert e * e >= e && x * e <= (low + 1) * e;
      assert d * d == e * e && x * d == -(x * e) && (2 * low + 1) * d == -((2 * low + 1) * e);
    }
  }

  lemma {:induction false} SumAtLeast<T(!new)>(keys: set<T>, f: map<T, int>, g: map<T, int>, h: map<T, int>)
    requires keys <= f.Keys && keys <= g.Keys && keys <= h.Keys
    requires forall x :: x in keys ==> f[x] >= g[x] + h[x]
    ensures Sum(keys, f) >= Sum(keys, g) + Sum(keys, h)
    decreases |keys|
  {
    if keys != {} {
      var x :| x in keys;
      SumSplit(keys, f, x); SumSplit(keys, g, x); SumSplit(keys, h, x);
      SumAtLeast(keys - {x}, f, g, h);
    }
  }

  lemma {:induction false} SumScaled<T(!new)>(keys: set<T>, h: map<T, int>, f: map<T, int>, g: map<T, int>, k: int)
    requires keys <= f.Keys && keys <= g.Keys && keys <= h.Keys
    requires forall x :: x in keys ==> h[x] == k * (g[x] - f[x])
    ensures Sum(keys, h) == k * (Sum(keys, g) - Sum(keys, f))
    decreases |keys|
  {
    if keys != {} {
      var x :| x in keys;
      var rest := keys - {x};
      SumSplit(keys, f, x); SumSplit(keys, g, x); SumSplit(keys, h, x);
      SumScaled(rest, h, f, g, k);
      calc {
        Sum(keys, h);
        k * (g[x] - f[x]) + k * (Sum(rest, g) - Sum(rest, f));
        k * ((g[x] - f[x]) + (Sum(rest, g) - Sum(rest, f)));
        k * (Sum(keys, g) - Sum(keys, f));
      }
    }
  }

  /** A vector `f` all of whose reducible entries are within one of the least entry has the
      least sum of squares among vectors of the same sum. */
  lemma SquaresDominate<T(!new)>(keys: set<T>, f: map<T, int>, g: map<T, int>, low: int)
    requires keys <= f.Keys && keys <= g.Keys && Sum(keys, f) == Sum(keys, g)
    requires forall x :: x in keys ==> low <= f[x] && (g[x] < f[x] ==> f[x] <= low + 1)
    ensures Sum(keys, Squares(g)) >= Sum(keys, Squares(f))
  {
    var k := 2 * low + 1;
    var h := map x | x in keys :: k * (g[x] - f[x]);
    forall x | x in keys ensures Squares(g)[x] >= Squares(f)[x] + h[x] { StepCost(f[x], g[x], low); }
    SumAtLeast(keys, Squares(g), Squares(f), h);
    SumScaled(keys, h, f, g, k);
  }
}
