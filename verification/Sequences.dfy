/** Facts about concatenation that proofs by induction on a list need one at a time. */
module Sequences {

  lemma Assoc<T>(a: seq<T>, b: seq<T>, c: seq<T>)
    ensures (a + b) + c == a + (b + c)
  {
  }

  lemma ConcatTail<T>(a: seq<T>, b: seq<T>)
    requires a != []
    ensures (a + b)[0] == a[0]
    ensures (a + b)[1..] == a[1..] + b
  {
  }

  lemma Empty<T>(a: seq<T>)
    ensures [] + a == a
    ensures a + [] == a
  {
  }

  lemma SameElementsSameLength<T>(s: seq<T>, s': seq<T>)
    requires multiset(s) == multiset(s')
    ensures |s| == |s'|
  {
    assert |multiset(s)| == |s|;
  }

  /** Two arrangements of the same elements stay so when one element is taken out of both. */
  lemma SameElementsWithout<T>(s: seq<T>, s': seq<T>) returns (i: nat)
    requires s != [] && multiset(s) == multiset(s')
    ensures i < |s'| && s'[i] == s[0] && multiset(s[1..]) == multiset(s'[..i] + s'[i + 1..])
  {
    assert s[0] in multiset(s');
    i :| 0 <= i < |s'| && s'[i] == s[0];
    assert s == [s[0]] + s[1..];
    assert s' == s'[..i] + [s'[i]] + s'[i + 1..];
    assert multiset(s[1..]) == multiset(s) - multiset{s[0]};
    assert multiset(s'[..i] + s'[i + 1..]) == multiset(s') - multiset{s'[i]};
  }

  /** Two arrangements of the same elements: the first begins with what the second has somewhere. */
  lemma SameElementsSplit<T>(s: seq<T>, s': seq<T>) returns (x: seq<T>, rest: seq<T>, before: seq<T>, after: seq<T>)
    requires s != [] && multiset(s) == multiset(s')
    ensures |x| == 1 && s == x + rest && s' == before + (x + after)
    ensures multiset(rest) == multiset(before + after)
  {
    var i := SameElementsWithout(s, s');
    x, rest, before, after := s[..1], s[1..], s'[..i], s'[i + 1..];
  }

  lemma ConcatMultiplicity<T>(a: seq<T>, b: seq<T>, x: T)
    ensures multiset(a + b)[x] == multiset(a)[x] + multiset(b)[x]
  {
  }

  lemma HeadMultiplicity<T>(s: seq<T>, x: T)
    requires s != []
    ensures multiset(s)[x] == (if s[0] == x then 1 else 0) + multiset(s[1..])[x]
  {
    assert s == [s[0]] + s[1..];
  }

  lemma MiddleMultiset<T>(a: seq<T>, x: seq<T>, b: seq<T>)
    ensures multiset(a + (x + b)) == multiset(x) + multiset(a + b)
  {
    assert multiset(a + (x + b)) == multiset(a) + (multiset(x) + multiset(b));
    assert multiset(a + b) == multiset(a) + multiset(b);
  }

  // ----- filtering -----

  function Filter<T>(s: seq<T>, keep: T -> bool): seq<T> {
    if s == [] then [] else (if keep(s[0]) then [s[0]] else []) + Filter(s[1..], keep)
  }

  lemma {:induction false} FilterOfConcat<T>(a: seq<T>, b: seq<T>, keep: T -> bool)
    ensures Filter(a + b, keep) == Filter(a, keep) + Filter(b, keep)
  {
    if a == [] {
      Empty(b);
    } else {
      ConcatTail(a, b);
      FilterOfConcat(a[1..], b, keep);
      Assoc(if keep(a[0]) then [a[0]] else [], Filter(a[1..], keep), Filter(b, keep));
    }
  }

  lemma FilterOfOneMore<T>(s: seq<T>, i: nat, keep: T -> bool)
    requires i < |s|
    ensures Filter(s[..i + 1], keep) == Filter(s[..i], keep) + (if keep(s[i]) then [s[i]] else [])
  {
    assert s[..i + 1] == s[..i] + [s[i]];
    FilterOfConcat(s[..i], [s[i]], keep);
    Empty(if keep(s[i]) then [s[i]] else []);
    assert [s[i]][1..] == [];
  }

  lemma {:induction false} FilterElements<T>(s: seq<T>, keep: T -> bool)
    ensures forall x :: x in Filter(s, keep) <==> x in s && keep(x)
  {
    if s != [] {
      FilterElements(s[1..], keep);
    }
  }

  lemma {:induction false} FilterMultiplicity<T>(s: seq<T>, keep: T -> bool, x: T)
    ensures multiset(Filter(s, keep))[x] == if keep(x) then multiset(s)[x] else 0
  {
    if s != [] {
      FilterMultiplicity(s[1..], keep, x);
      assert s == [s[0]] + s[1..];
    }
  }

  lemma {:induction false} Once(n: nat, i: nat)
    ensures multiset(seq(n, i => i))[i] == if i < n then 1 else 0
  {
    if n > 0 {
      Once(n - 1, i);
      assert seq(n, i => i) == seq(n - 1, i => i) + [n - 1];
      ConcatMultiplicity(seq(n - 1, i => i), [n - 1], i);
    }
  }

  predicate Distinct<T(==)>(s: seq<T>) {
    forall i, j | 0 <= i < j < |s| :: s[i] != s[j]
  }

  predicate Throughout(f: nat -> bool, k: nat, n: nat) {
    forall m: nat | k <= m <= n :: f(m)
  }

  /** The last position before something that holds at first no longer does. */
  lemma {:induction false} LastWhile(f: nat -> bool, k: nat, n: nat) returns (j: nat)
    requires k <= n && f(k) && !Throughout(f, k, n)
    ensures k <= j < n && Throughout(f, k, j) && !f(j + 1)
    decreases n - k
  {
    j := k;
    if f(k + 1) {
      j := LastWhile(f, k + 1, n);
    }
  }

  function Map<T, U>(s: seq<T>, f: T -> U): (r: seq<U>)
    ensures |r| == |s| && forall i | 0 <= i < |s| :: r[i] == f(s[i])
  {
    seq(|s|, i requires 0 <= i < |s| => f(s[i]))
  }

  /** Filtering what has been mapped is mapping what has been filtered, if the decisions agree. */
  lemma {:induction false} FilterOfMap<T, U>(s: seq<T>, f: T -> U, keep: U -> bool, keep': T -> bool)
    requires forall x | x in s :: keep(f(x)) == keep'(x)
    ensures Filter(Map(s, f), keep) == Map(Filter(s, keep'), f)
  {
    if s != [] {
      assert s[0] in s;
      FilterOfMap(s[1..], f, keep, keep');
      assert Map(s, f)[1..] == Map(s[1..], f);
    }
  }

  /** A list filtered by decisions that agree on all of it. */
  lemma {:induction false} FilterAgrees<T>(s: seq<T>, keep: T -> bool, keep': T -> bool)
    requires forall x | x in s :: keep(x) == keep'(x)
    ensures Filter(s, keep) == Filter(s, keep')
  {
    if s != [] {
      assert s[0] in s;
      FilterAgrees(s[1..], keep, keep');
    }
  }
}
