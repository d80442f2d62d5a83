/** Sizes of sets, as the store's limit and the count of explored nodes need them. */
module FiniteSets {

  lemma {:induction false} SubsetSize<T>(a: set<T>, b: set<T>)
    requires a <= b
    ensures |a| <= |b|
    decreases |a|
  {
    if a != {} {
      var x :| x in a;
      SubsetSize(a - {x}, b - {x});
    }
  }

  lemma SameSize<T>(a: set<T>, b: set<T>)
    requires a <= b && |a| >= |b|
    ensures a == b
  {
    if b - a == {} {
      assert b == a + (b - a);
    } else {
      var x :| x in b - a;
      SubsetSize(a, b - {x});
    }
  }

  function ElementsOf<T(==)>(s: seq<T>): set<T> {
    set x | x in s
  }

  ghost predicate NoRepeats<T(!new)>(s: seq<T>) {
    forall i, j :: 0 <= i < j < |s| ==> s[i] != s[j]
  }

  /** A list is as long as the set of its elements exactly when none of them repeats. */
  lemma {:induction false} DistinctExactly<T(!new)>(s: seq<T>)
    ensures |ElementsOf(s)| <= |s|
    ensures |ElementsOf(s)| == |s| <==> NoRepeats(s)
    decreases |s|
  {
    if s != [] {
      var init, last := s[..|s| - 1], s[|s| - 1];
      DistinctExactly(init);
      assert s == init + [last];
      assert ElementsOf(s) == ElementsOf(init) + {last};
      if last in init {
        var i :| 0 <= i < |init| && init[i] == last;
        assert s[i] == s[|s| - 1];
        assert ElementsOf(s) == ElementsOf(init);
      } else {
        assert NoRepeats(init) ==> NoRepeats(s);
        assert NoRepeats(s) ==> NoRepeats(init);
      }
    }
  }
}
