/** How many of the first numbers have a property. */
module Counting {
  ghost function Count(k: nat, f: nat -> bool): (c: nat)
    ensures c <= k
  {
    if k == 0 then 0 else Count(k - 1, f) + if f(k - 1) then 1 else 0
  }

  lemma {:induction false} CountShift(k: nat, f: nat -> bool, h: nat -> bool)
    requires k > 0 && forall a: nat :: a < k - 1 ==> h(a) == f(a + 1)
    ensures Count(k, f) == Count(k - 1, h) + if f(0) then 1 else 0
  {
    if k > 1 {
      CountShift(k - 1, f, h);
      assert h(k - 2) == f(k - 2 + 1);
    }
  }

  lemma {:induction false} CountSame(k: nat, f: nat -> bool, h: nat -> bool)
    requires forall a: nat :: a < k ==> f(a) == h(a)
    ensures Count(k, f) == Count(k, h)
  {
    if k > 0 {
      CountSame(k - 1, f, h);
    }
  }

  lemma {:induction false} CountSplit(k: nat, f: nat -> bool, g: nat -> bool, h: nat -> bool)
    requires forall a: nat :: a < k ==> (f(a) <==> g(a) || h(a)) && !(g(a) && h(a))
    ensures Count(k, f) == Count(k, g) + Count(k, h)
  {
    if k > 0 {
      CountSplit(k - 1, f, g, h);
    }
  }

  lemma {:induction false} CountBelow(k: nat, f: nat -> bool, h: nat -> bool)
    requires forall a: nat :: a < k && f(a) ==> h(a)
    ensures Count(k, f) <= Count(k, h)
    ensures Count(k, f) == Count(k, h) <==> forall a: nat :: a < k && h(a) ==> f(a)
  {
    if k > 0 {
      CountBelow(k - 1, f, h);
    }
  }

  lemma {:induction false} CountNone(k: nat, f: nat -> bool)
    ensures Count(k, f) == 0 <==> forall a: nat :: a < k ==> !f(a)
  {
    if k > 0 {
      CountNone(k - 1, f);
    }
  }

  /** The places p(0), ..., p(n-1) are n of the k: inv says which of them a place is. */
  lemma {:induction false} CountImage(k: nat, f: nat -> bool, n: nat, p: nat -> nat, inv: nat -> nat)
    requires forall i: nat :: i < n ==> p(i) < k && f(p(i)) && inv(p(i)) == i
    requires forall a: nat :: a < k && f(a) ==> inv(a) < n && p(inv(a)) == a
    ensures Count(k, f) == n
    decreases n
  {
    if n == 0 {
      CountNone(k, f);
    } else {
      var last := p(n - 1);
      var f' := (a: nat) => f(a) && a != last;
      CountImage(k, f', n - 1, p, inv);
      CountSplit(k, f, f', (a: nat) => a == last);
      CountOne(k, last);
    }
  }

  lemma {:induction false} CountOne(k: nat, x: nat)
    requires x < k
    ensures Count(k, (a: nat) => a == x) == 1
  {
    var f := (a: nat) => a == x;
    if x == k - 1 {
      CountNone(k - 1, f);
    } else {
      CountOne(k - 1, x);
      CountSame(k - 1, f, (a: nat) => a == x);
    }
  }

  lemma {:induction false} CountAll(k: nat, f: nat -> bool)
    requires forall a: nat :: a < k ==> f(a)
    ensures Count(k, f) == k
  {
    if k > 0 {
      CountAll(k - 1, f);
    }
  }
}
