/** Finite sums. */
module Sums {

  ghost function Pick<T>(s: set<T>): (x: T)
    requires |s| != 0
    ensures x in s
  {
    var x :| x in s;
    x
  }

  ghost function Sum<T>(s: set<T>, f: T -> int): int
  {
    if |s| == 0 then 0
    else
      var x := Pick(s);
      f(x) + Sum(s - {x}, f)
  }

  lemma {:induction false} SumTakeOut<T>(s: set<T>, f: T -> int, x: T)
    requires x in s
    ensures Sum(s, f) == f(x) + Sum(s - {x}, f)
    decreases s
  {
    var y := Pick(s);
    if y != x {
      SumTakeOut(s - {y}, f, x);
      SumTakeOut(s - {x}, f, y);
      assert s - {y} - {x} == s - {x} - {y};
    }
  }

  lemma {:induction false} SumSame<T>(s: set<T>, f: T -> int, g: T -> int)
    requires forall x | x in s :: f(x) == g(x)
    ensures Sum(s, f) == Sum(s, g)
    decreases s
  {
    if |s| != 0 {
      var x := Pick(s);
      SumTakeOut(s, f, x);
      SumTakeOut(s, g, x);
      SumSame(s - {x}, f, g);
    }
  }

  /** Changing one term, which may be new, changes the sum by as much. */
  lemma SumChangeOne<T>(s: set<T>, f: T -> int, g: T -> int, x: T)
    requires forall y | y in s && y != x :: f(y) == g(y)
    requires x !in s ==> f(x) == 0
    ensures Sum(s + {x}, g) == Sum(s, f) + g(x) - f(x)
  {
    SumTakeOut(s + {x}, g, x);
    assert s + {x} - {x} == s - {x};
    SumSame(s - {x}, f, g);
    if x in s {
      SumTakeOut(s, f, x);
    } else {
      assert s - {x} == s;
    }
  }

  /** The same, when the changed term may stay out of the sum altogether. */
  lemma SumStep<T>(s: set<T>, f: T -> int, g: T -> int, x: T, counts: bool)
    requires forall y | y in s && y != x :: f(y) == g(y)
    requires if counts then x in s || f(x) == 0 else x !in s
    ensures Sum(s + if counts then {x} else {}, g) == Sum(s, f) + if counts then g(x) - f(x) else 0
  {
    if counts {
      SumChangeOne(s, f, g, x);
    } else {
      SumSame(s, f, g);
      assert s + {} == s;
    }
  }

  lemma {:induction false} SumPlus<T>(s: set<T>, f: T -> int, g: T -> int, h: T -> int)
    requires forall x | x in s :: h(x) == f(x) + g(x)
    ensures Sum(s, h) == Sum(s, f) + Sum(s, g)
    decreases s
  {
    if |s| != 0 {
      var x := Pick(s);
      SumTakeOut(s, f, x);
      SumTakeOut(s, g, x);
      SumTakeOut(s, h, x);
      SumPlus(s - {x}, f, g, h);
    }
  }

  /** A sum of naturals is zero exactly when every term is. */
  lemma {:induction false} SumZeroIff<T>(s: set<T>, f: T -> int)
    requires forall x | x in s :: f(x) >= 0
    ensures Sum(s, f) >= 0
    ensures Sum(s, f) == 0 <==> forall x | x in s :: f(x) == 0
    decreases s
  {
    if |s| != 0 {
      var x := Pick(s);
      SumTakeOut(s, f, x);
      SumZeroIff(s - {x}, f);
      assert s == s - {x} + {x};
    }
  }
}
