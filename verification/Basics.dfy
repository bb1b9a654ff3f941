/** Vocabulary the other modules share. */
module Basics {

  datatype Option<+T> = None | Some(value: T)

  ghost predicate Distinct<T>(s: seq<T>) {
    forall i, j :: 0 <= i < j < |s| ==> s[i] != s[j]
  }

  ghost predicate StrictlyIncreasing(s: seq<int>) {
    forall i, j :: 0 <= i < j < |s| ==> s[i] < s[j]
  }

  ghost function Elems<T>(s: seq<T>): set<T> {
    set x | x in s
  }

  lemma CountSnoc<T>(front: seq<T>, last: T)
    ensures multiset(front + [last]) == multiset(front) + multiset{last}
  {
  }

  lemma CountTake<T>(s: seq<T>, n: nat)
    requires n < |s|
    ensures multiset(s[..n + 1]) == multiset(s[..n]) + multiset{s[n]}
  {
    assert s[..n + 1] == s[..n] + [s[n]];
  }

  lemma WithinNext<T>(part: multiset<T>, whole: multiset<T>, more: multiset<T>, next: multiset<T>)
    requires part <= whole && more <= part + next
    ensures more <= whole + next
  {
  }

  /** A list has at least as many places as members, and as many exactly when they are distinct. */
  lemma {:induction false} ElemsCard<T>(s: seq<T>)
    ensures |Elems(s)| <= |s|
    ensures Distinct(s) <==> |Elems(s)| == |s|
  {
    if s != [] {
      var front, last := s[..|s| - 1], s[|s| - 1];
      ElemsCard(front);
      assert s == front + [last];
      assert Elems(s) == Elems(front) + {last};
      assert Distinct(s) <==> Distinct(front) && last !in front;
    }
  }

  ghost predicate OnceEach<T>(s: seq<T>) {
    forall x | x in s :: multiset(s)[x] == 1
  }

  lemma OnceSnoc<T>(front: seq<T>, last: T)
    ensures OnceEach(front + [last]) <==> OnceEach(front) && last !in front
  {
    var s := front + [last];
    CountSnoc(front, last);
    assert last in s && (last in front <==> last in multiset(front));
    if OnceEach(s) {
      forall x | x in front ensures multiset(front)[x] == 1 && x != last {
        assert x in s && x in multiset(front);
      }
    }
  }

  /** Distinct means that nothing occurs more than once. */
  lemma {:induction false} DistinctIffOnce<T>(s: seq<T>)
    ensures Distinct(s) <==> OnceEach(s)
  {
    if s != [] {
      var front, last := s[..|s| - 1], s[|s| - 1];
      DistinctIffOnce(front);
      assert s == front + [last];
      OnceSnoc(front, last);
      assert Distinct(s) <==> Distinct(front) && last !in front;
    }
  }

  /** What fits into a list without repetition has none. */
  lemma SubMultisetDistinct<T>(a: seq<T>, b: seq<T>)
    requires multiset(a) <= multiset(b) && Distinct(b)
    ensures Distinct(a)
    ensures forall x :: x in a ==> x in b
  {
    DistinctIffOnce(a);
    DistinctIffOnce(b);
    forall x | x in a ensures x in b && multiset(a)[x] == 1 {
      assert x in multiset(a) && x in multiset(b);
    }
  }

  /** From a list without repetition, subtraction takes out whole members. */
  lemma SubtractDistinct<T>(all: seq<T>, gone: seq<T>, left: seq<T>)
    requires Distinct(all) && multiset(left) == multiset(all) - multiset(gone)
    ensures Distinct(left) && Elems(left) == Elems(all) - Elems(gone)
  {
    SubMultisetDistinct(left, all);
    DistinctIffOnce(all);
    forall x ensures x in left <==> x in all && x !in gone {
      assert x in left <==> x in multiset(left);
      assert x in all <==> x in multiset(all);
      assert x in gone <==> x in multiset(gone);
      assert multiset(left)[x] == if multiset(gone)[x] <= multiset(all)[x] then multiset(all)[x] - multiset(gone)[x]
          else 0;
    }
  }

  lemma CardSubset<T>(a: set<T>, b: set<T>)
    requires a <= b
    ensures |a| <= |b|
  {
    assert b == a + (b - a);
  }

  lemma UnionCard<T>(all: set<T>, a: set<T>, b: set<T>)
    requires all <= a + b
    ensures |all| <= |a| + |b|
  {
    CardSubset(all, a + b);
    assert a + b == a + (b - a);
    CardSubset(b - a, b);
  }

  lemma DistinctConcat<T>(a: seq<T>, b: seq<T>)
    requires Distinct(a) && Distinct(b) && forall x | x in a :: x !in b
    ensures Distinct(a + b)
  {
    var all := a + b;
    forall i, j | 0 <= i < j < |all| ensures all[i] != all[j] {
      if i < |a| <= j {
        assert all[i] in a && all[j] == b[j - |a|];
      }
    }
  }

  lemma IncreasingConcat(a: seq<int>, b: seq<int>)
    requires StrictlyIncreasing(a) && StrictlyIncreasing(b)
    requires forall i, j :: 0 <= i < |a| && 0 <= j < |b| ==> a[i] < b[j]
    ensures StrictlyIncreasing(a + b)
  {
    var all := a + b;
    forall i, j | 0 <= i < j < |all| ensures all[i] < all[j] {
      if i < |a| <= j {
        assert all[j] == b[j - |a|];
      }
    }
  }

  /** `at` are the given numbers, all of them from `from` up to `end`, in order. */
  ghost predicate InOrderFrom(at: seq<int>, from: nat, end: nat, numbers: set<int>) {
    StrictlyIncreasing(at) && Elems(at) == numbers && forall i :: 0 <= i < |at| ==> from <= at[i] < end
  }

  lemma FirstInOrder(first: nat, later: seq<int>, end: nat, numbers: set<int>)
    requires InOrderFrom(later, first + 1, end, numbers) && first < end
    ensures InOrderFrom([first] + later, first, end, {first} + numbers)
  {
    IncreasingConcat([first], later);
    var all := [first] + later;
    forall x ensures x in Elems(all) <==> x == first || x in Elems(later) {
      assert x == first ==> all[0] == x;
    }
  }

  function Min(a: int, b: int): int {
    if a <= b then a else b
  }

  function Max(a: int, b: int): int {
    if a <= b then b else a
  }
}
