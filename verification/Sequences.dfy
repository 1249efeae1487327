/** Keeping the elements of a sequence that satisfy a predicate, in their order: what becomes of a
    concatenation, of a permutation and of the number of times that an element occurs, and that of
    two such filters either may come first. */
module Sequences {
  function Keep<T>(p: T -> bool, s: seq<T>): (r: seq<T>)
    ensures |r| <= |s|
  {
    if s == [] then []
    else Keep(p, s[..|s| - 1]) + if p(s[|s| - 1]) then [s[|s| - 1]] else []
  }

  lemma {:induction false} KeepConcat<T>(p: T -> bool, s: seq<T>, t: seq<T>)
    ensures Keep(p, s + t) == Keep(p, s) + Keep(p, t)
  {
    if t == [] {
      assert s + t == s;
    } else {
      assert (s + t)[..|s + t| - 1] == s + t[..|t| - 1];
      KeepConcat(p, s, t[..|t| - 1]);
    }
  }

  lemma KeepOne<T>(p: T -> bool, x: T)
    ensures Keep(p, [x]) == if p(x) then [x] else []
  {
    assert [x][..0] == [];
    assert Keep(p, []) == [];
  }

  lemma KeepFirst<T>(p: T -> bool, x: T, s: seq<T>)
    ensures Keep(p, [x] + s) == (if p(x) then [x] else []) + Keep(p, s)
  {
    KeepConcat(p, [x], s);
    KeepOne(p, x);
    hide Keep;
  }

  lemma {:induction false} KeepAll<T>(p: T -> bool, s: seq<T>)
    requires forall x :: x in s ==> p(x)
    ensures Keep(p, s) == s
  {
    if s != [] {
      KeepAll(p, s[..|s| - 1]);
      assert s[|s| - 1] in s;
    }
  }

  lemma {:induction false} KeepNone<T>(p: T -> bool, s: seq<T>)
    requires forall x :: x in s ==> !p(x)
    ensures Keep(p, s) == []
  {
    if s != [] {
      KeepNone(p, s[..|s| - 1]);
    }
  }

  lemma {:induction false} KeepSame<T>(p: T -> bool, q: T -> bool, s: seq<T>)
    requires forall x :: x in s ==> p(x) == q(x)
    ensures Keep(p, s) == Keep(q, s)
  {
    if s != [] {
      KeepSame(p, q, s[..|s| - 1]);
    }
  }

  lemma {:induction false} KeepElements<T>(p: T -> bool, s: seq<T>)
    ensures forall x :: x in Keep(p, s) <==> x in s && p(x)
  {
    if s != [] {
      KeepElements(p, s[..|s| - 1]);
      assert s == s[..|s| - 1] + [s[|s| - 1]];
    }
  }

  lemma {:induction false} KeepCount<T>(p: T -> bool, s: seq<T>, x: T)
    ensures multiset(Keep(p, s))[x] == if p(x) then multiset(s)[x] else 0
  {
    if s != [] {
      KeepCount(p, s[..|s| - 1], x);
      assert s == s[..|s| - 1] + [s[|s| - 1]];
    }
  }

  lemma EqualCounts<T>(a: multiset<T>, b: multiset<T>)
    requires forall x :: a[x] == b[x]
    ensures a == b
  {
    assert forall x :: x in a ==> a[x] <= b[x];
    assert forall x :: x in b ==> b[x] <= a[x];
    assert a <= b <= a;
  }

  /** What is kept depends on the elements alone, not on their order. */
  lemma KeepPermutation<T>(p: T -> bool, s: seq<T>, t: seq<T>)
    requires multiset(s) == multiset(t)
    ensures multiset(Keep(p, s)) == multiset(Keep(p, t))
  {
    var a, b := multiset(Keep(p, s)), multiset(Keep(p, t));
    forall x
      ensures a[x] == b[x]
    {
      KeepCount(p, s, x);
      KeepCount(p, t, x);
    }
    EqualCounts(a, b);
  }

  lemma {:induction false} KeepCommutes<T>(p: T -> bool, q: T -> bool, s: seq<T>)
    ensures Keep(p, Keep(q, s)) == Keep(q, Keep(p, s))
  {
    if s != [] {
      var rest, x := s[..|s| - 1], s[|s| - 1];
      KeepCommutes(p, q, rest);
      KeepConcat(p, Keep(q, rest), if q(x) then [x] else []);
      KeepConcat(q, Keep(p, rest), if p(x) then [x] else []);
      KeepOne(p, x);
      KeepOne(q, x);
    }
  }

  lemma Regroup<T>(a: seq<T>, b: seq<T>, c: seq<T>)
    ensures (a + b) + c == a + (b + c)
  {
  }
}
