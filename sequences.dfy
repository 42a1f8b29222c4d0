/** Facts about sequences of broker ids that the planner relies on. */
module Sequences {

  /** No element occurs twice. */
  predicate NoDuplicates<T(==)>(s: seq<T>) {
    forall i, j :: 0 <= i < j < |s| ==> s[i] != s[j]
  }

  /** The elements of `s`, as a set. */
  function Elements<T(==)>(s: seq<T>): set<T> {
    set x | x in s
  }

  /** `s` without the elements of `drop`; the others stay in their order. */
  function Excluding<T(==)>(s: seq<T>, drop: set<T>): seq<T> {
    if s == [] then []
    else Excluding(s[..|s| - 1], drop) + (if s[|s| - 1] in drop then [] else [s[|s| - 1]])
  }

  lemma {:induction false} ExcludingMembers<T>(s: seq<T>, drop: set<T>)
    ensures forall x :: x in Excluding(s, drop) <==> x in s && x !in drop
  {
    if s != [] {
      var init := s[..|s| - 1];
      ExcludingMembers(init, drop);
      assert s == init + [s[|s| - 1]];
    }
  }

  /** Apart from elements of `drop`, which may repeat, no element occurs twice. */
  predicate NoDuplicatesOutside<T(==)>(s: seq<T>, drop: set<T>) {
    forall i, j :: 0 <= i < j < |s| && s[i] !in drop ==> s[i] != s[j]
  }

  /** Dropping the elements that may repeat leaves a duplicate-free sequence. */
  lemma {:induction false} ExcludingDistinct<T>(s: seq<T>, drop: set<T>)
    requires NoDuplicatesOutside(s, drop)
    ensures NoDuplicates(Excluding(s, drop))
  {
    if s != [] {
      var init, last := s[..|s| - 1], s[|s| - 1];
      ExcludingDistinct(init, drop);
      ExcludingMembers(init, drop);
      if last !in drop {
        assert last !in init;
      }
    }
  }

  /** On a duplicate-free sequence, exactly the dropped elements that occur are removed. */
  lemma {:induction false} ExcludingLength<T>(s: seq<T>, drop: set<T>)
    requires NoDuplicates(s)
    ensures |Excluding(s, drop)| + |drop * Elements(s)| == |s|
  {
    if s != [] {
      var init, last := s[..|s| - 1], s[|s| - 1];
      ExcludingLength(init, drop);
      assert s == init + [last];
      assert Elements(s) == Elements(init) + {last};
      assert last !in Elements(init);
      if last in drop {
        assert drop * Elements(s) == (drop * Elements(init)) + {last};
      } else {
        assert drop * Elements(s) == drop * Elements(init);
      }
    }
  }

  lemma {:induction false} ElementsBound<T>(s: seq<T>)
    ensures |Elements(s)| <= |s|
  {
    if s != [] {
      ElementsBound(s[1..]);
      assert Elements(s) == Elements(s[1..]) + {s[0]};
    }
  }

  /** Removing the elements of `used` from a duplicate-free `s` removes at most |used| of them. */
  lemma ExcludingAtLeast<T>(s: seq<T>, used: seq<T>)
    requires NoDuplicates(s)
    ensures |Excluding(s, Elements(used))| >= |s| - |used|
  {
    ExcludingLength(s, Elements(used));
    ElementsBound(used);
    var both := Elements(used) * Elements(s);
    assert |both| <= |Elements(used)| by {
      assert Elements(used) == both + (Elements(used) - both);
    }
  }

  /** In a duplicate-free sequence every element occurs at most once. */
  lemma {:induction false} DistinctMultiplicity<T>(s: seq<T>, x: T)
    requires NoDuplicates(s)
    ensures multiset(s)[x] <= 1
  {
    if s != [] {
      DistinctMultiplicity(s[1..], x);
      assert s == [s[0]] + s[1..];
      if s[0] == x {
        assert x !in s[1..];
      }
    }
  }

  /** A sequence whose elements are drawn, without repetition, from a duplicate-free one is duplicate-free. */
  lemma SubMultisetDistinct<T>(a: seq<T>, b: seq<T>)
    requires multiset(a) <= multiset(b)
    requires NoDuplicates(b)
    ensures NoDuplicates(a)
  {
    forall i, j | 0 <= i < j < |a| ensures a[i] != a[j] {
      if a[i] == a[j] {
        var x := a[i];
        assert a == a[..j] + a[j..];
        assert x in a[..j] && x in a[j..];
        assert multiset(a)[x] == multiset(a[..j])[x] + multiset(a[j..])[x];
        DistinctMultiplicity(b, x);
        assert false;
      }
    }
  }

  /** Go's swap-remove: overwrite position j with the last element, then drop the last position. */
  lemma SwapRemoveMultiset<T>(s: seq<T>, j: nat)
    requires j < |s|
    ensures multiset(s[j := s[|s| - 1]][..|s| - 1]) == multiset(s) - multiset{s[j]}
  {
    var n, last := |s|, s[|s| - 1];
    assert s == s[..n - 1] + [last];
    if j < n - 1 {
      assert s[j := last][..n - 1] == s[..n - 1][j := last];
    } else {
      assert s[j := last][..n - 1] == s[..n - 1];
    }
  }

  /** A non-empty set has an element (the witness that a pick from it needs). */
  lemma NonEmptyHasElement(s: set<int>)
    requires s != {}
    ensures exists x :: x in s
  {
    if forall x :: x !in s {
      assert false;
    }
  }
}
