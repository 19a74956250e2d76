/** Counting in lists: how many elements satisfy a predicate, and sums over them. */
module Counting {
  function HowMany<T>(s: seq<T>, p: T -> bool): nat {
    if s == [] then 0 else HowMany(s[..|s| - 1], p) + if p(s[|s| - 1]) then 1 else 0
  }

  function SumOver<T>(s: seq<T>, f: T -> nat): nat {
    if s == [] then 0 else SumOver(s[..|s| - 1], f) + f(s[|s| - 1])
  }

  lemma HowManySnoc<T>(s: seq<T>, x: T, p: T -> bool)
    ensures HowMany(s + [x], p) == HowMany(s, p) + if p(x) then 1 else 0
  {
    assert (s + [x])[..|s|] == s;
  }

  lemma SumOverSnoc<T>(s: seq<T>, x: T, f: T -> nat)
    ensures SumOver(s + [x], f) == SumOver(s, f) + f(x)
  {
    assert (s + [x])[..|s|] == s;
  }

  lemma {:induction false} HowManySame<T>(s: seq<T>, p: T -> bool, q: T -> bool)
    requires forall x :: x in s ==> p(x) == q(x)
    ensures HowMany(s, p) == HowMany(s, q)
  {
    if s == [] {
    } else {
      HowManySame(s[..|s| - 1], p, q);
    }
  }

  lemma {:induction false} SumOverSame<T>(s: seq<T>, f: T -> nat, g: T -> nat)
    requires forall x :: x in s ==> f(x) == g(x)
    ensures SumOver(s, f) == SumOver(s, g)
  {
    if s == [] {
    } else {
      SumOverSame(s[..|s| - 1], f, g);
    }
  }

  lemma {:induction false} SumOverNothing<T>(s: seq<T>, f: T -> nat)
    requires forall x :: x in s ==> f(x) == 0
    ensures SumOver(s, f) == 0
  {
    if s == [] {
    } else {
      SumOverNothing(s[..|s| - 1], f);
    }
  }

  /** A count is zero exactly if nothing satisfies the predicate. */
  lemma {:induction false} NoneExactly<T>(s: seq<T>, p: T -> bool)
    ensures HowMany(s, p) == 0 <==> forall x :: x in s ==> !p(x)
  {
    if s == [] {
    } else {
      NoneExactly(s[..|s| - 1], p);
      assert s == s[..|s| - 1] + [s[|s| - 1]];
    }
  }

  lemma {:induction false} SumOverZeroExactly<T>(s: seq<T>, f: T -> nat)
    ensures SumOver(s, f) == 0 <==> forall x :: x in s ==> f(x) == 0
  {
    if s == [] {
    } else {
      SumOverZeroExactly(s[..|s| - 1], f);
      assert s == s[..|s| - 1] + [s[|s| - 1]];
    }
  }

  /** Every element either satisfies the predicate or does not. */
  lemma {:induction false} HowManySplit<T>(s: seq<T>, p: T -> bool, q: T -> bool)
    requires forall x :: x in s ==> (p(x) <==> !q(x))
    ensures HowMany(s, p) + HowMany(s, q) == |s|
  {
    if s == [] {
    } else {
      HowManySplit(s[..|s| - 1], p, q);
    }
  }

  lemma {:induction false} HowManyConcat<T>(a: seq<T>, b: seq<T>, p: T -> bool)
    ensures HowMany(a + b, p) == HowMany(a, p) + HowMany(b, p)
    decreases |b|
  {
    if b == [] {
      assert a + b == a;
    } else {
      var front, last := b[..|b| - 1], b[|b| - 1];
      HowManyConcat(a, front, p);
      HowManySnoc(a + front, last, p);
      HowManySnoc(front, last, p);
      assert b == front + [last] && a + b == a + front + [last];
    }
  }

  lemma {:induction false} SumOverAdds<T>(s: seq<T>, f: T -> nat, g: T -> nat, h: T -> nat)
    requires forall x :: x in s ==> h(x) == f(x) + g(x)
    ensures SumOver(s, h) == SumOver(s, f) + SumOver(s, g)
  {
    if s == [] {
    } else {
      SumOverAdds(s[..|s| - 1], f, g, h);
    }
  }

  lemma {:induction false} HowManyAdds<T>(s: seq<T>, p: T -> bool, q: T -> bool, r: T -> bool)
    requires forall x :: x in s ==> !(p(x) && q(x)) && (r(x) <==> p(x) || q(x))
    ensures HowMany(s, r) == HowMany(s, p) + HowMany(s, q)
  {
    if s == [] {
    } else {
      HowManyAdds(s[..|s| - 1], p, q, r);
    }
  }

  function Equals<T(==)>(x: T): T -> bool { y => y == x }

  /** How often an element stands in a list. */
  lemma {:induction false} HowManyIsMultiplicity<T>(s: seq<T>, x: T)
    ensures HowMany(s, Equals(x)) == multiset(s)[x]
  {
    if s == [] {
    } else {
      HowManyIsMultiplicity(s[..|s| - 1], x);
      assert s == s[..|s| - 1] + [s[|s| - 1]];
    }
  }

  /** How many numbers below n satisfy the predicate. */
  function HowManyBelow(n: nat, p: nat -> bool): nat {
    if n == 0 then 0 else HowManyBelow(n - 1, p) + if p(n - 1) then 1 else 0
  }

  /** The sum of f over the numbers below n. */
  function SumBelow(n: nat, f: nat -> nat): nat {
    if n == 0 then 0 else SumBelow(n - 1, f) + f(n - 1)
  }

  lemma {:induction false} NoneBelow(n: nat, p: nat -> bool)
    requires forall i: nat :: i < n ==> !p(i)
    ensures HowManyBelow(n, p) == 0
  {
    if n == 0 {
    } else {
      NoneBelow(n - 1, p);
    }
  }

  lemma {:induction false} SameBelow(n: nat, p: nat -> bool, q: nat -> bool)
    requires forall i: nat :: i < n ==> p(i) == q(i)
    ensures HowManyBelow(n, p) == HowManyBelow(n, q)
  {
    if n == 0 {
    } else {
      SameBelow(n - 1, p, q);
    }
  }

  /** A predicate that does not look at its argument counts all elements or none. */
  lemma {:induction false} AllOrNone<T>(s: seq<T>, p: T -> bool, holds: bool)
    requires forall x :: x in s ==> p(x) == holds
    ensures HowMany(s, p) == if holds then |s| else 0
  {
    if s == [] {
    } else {
      AllOrNone(s[..|s| - 1], p, holds);
    }
  }

  /** Whatever starts at nought and grows by one exactly at the elements that satisfy p counts them. */
  lemma {:induction false} CountsUpTo<T>(s: seq<T>, n: nat, p: T -> bool, count: nat -> nat)
    requires n <= |s| && count(0) == 0
    requires forall k: nat {:trigger s[k]} :: k < |s| ==> count(k + 1) == count(k) + if p(s[k]) then 1 else 0
    ensures count(n) == HowMany(s[..n], p)
  {
    if n == 0 {
    } else {
      CountsUpTo(s, n - 1, p, count);
      HowManySnoc(s[..n - 1], s[n - 1], p);
      assert s[..n] == s[..n - 1] + [s[n - 1]];
    }
  }

  lemma {:induction false} CountsBelow(n: nat, p: nat -> bool, count: nat -> nat)
    requires count(0) == 0
    requires forall k: nat {:trigger p(k)} :: k < n ==> count(k + 1) == count(k) + if p(k) then 1 else 0
    ensures count(n) == HowManyBelow(n, p)
  {
    if n == 0 {
    } else {
      CountsBelow(n - 1, p, count);
    }
  }

  lemma {:induction false} SumsUpTo(n: nat, f: nat -> nat, sum: nat -> nat)
    requires sum(0) == 0 && forall k: nat {:trigger f(k)} :: k < n ==> sum(k + 1) == sum(k) + f(k)
    ensures sum(n) == SumBelow(n, f)
  {
    if n == 0 {
    } else {
      SumsUpTo(n - 1, f, sum);
    }
  }

  /** What holds of nothing, and of one element more whenever it held before, holds of the first n. */
  lemma {:induction false} AlongList<X, S>(xs: seq<X>, n: nat, stages: nat -> S, inv: (seq<X>, S) -> bool)
    requires n <= |xs| && inv([], stages(0))
    requires forall k: nat {:trigger stages(k)} :: k < |xs| && inv(xs[..k], stages(k))
               ==> inv(xs[..k] + [xs[k]], stages(k + 1))
    ensures inv(xs[..n], stages(n))
  {
    if n == 0 {
      assert xs[..n] == [];
    } else {
      AlongList(xs, n - 1, stages, inv);
      assert xs[..n] == xs[..n - 1] + [xs[n - 1]];
    }
  }

  /** And so of the whole list. */
  lemma AlongWhole<X, S>(xs: seq<X>, stages: nat -> S, inv: (seq<X>, S) -> bool)
    requires inv([], stages(0))
    requires forall k: nat {:trigger stages(k)} :: k < |xs| && inv(xs[..k], stages(k))
               ==> inv(xs[..k] + [xs[k]], stages(k + 1))
    ensures inv(xs, stages(|xs|))
  {
    AlongList(xs, |xs|, stages, inv);
    assert xs[..|xs|] == xs;
  }

  lemma CountsAll<T>(s: seq<T>, p: T -> bool, count: nat -> nat)
    requires count(0) == 0
    requires forall k: nat {:trigger s[k]} :: k < |s| ==> count(k + 1) == count(k) + if p(s[k]) then 1 else 0
    ensures count(|s|) == HowMany(s, p)
  {
    CountsUpTo(s, |s|, p, count);
    assert s[..|s|] == s;
  }
}
