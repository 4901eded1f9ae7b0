/** Array.prototype.sort with a comparator function: a stable sort, here an
    insertion sort that inserts each element behind everything it does not
    strictly precede. The lemmas need only that the comparator is
    antisymmetric and transitive, as every comparator of the dashboard is. */
module Sorting {
  import opened Seqs

  /** `a` may stay before `b`. */
  ghost predicate Precedes<T>(cmp: (T, T) -> real, a: T, b: T) {
    cmp(a, b) <= 0.0
  }

  ghost predicate LawfulComparator<T(!new)>(cmp: (T, T) -> real) {
    && (forall a, b :: cmp(b, a) == -cmp(a, b))
    && (forall a, b, c {:trigger Precedes(cmp, a, b), Precedes(cmp, b, c)} ::
          Precedes(cmp, a, b) && Precedes(cmp, b, c) ==> Precedes(cmp, a, c))
  }

  lemma Transitive<T(!new)>(cmp: (T, T) -> real, a: T, b: T, c: T)
    requires LawfulComparator(cmp)
    requires cmp(a, b) <= 0.0 && cmp(b, c) <= 0.0
    ensures cmp(a, c) <= 0.0
  {
    assert Precedes(cmp, a, b) && Precedes(cmp, b, c);
  }

  /** An element strictly after `x` cannot tie with what `x` ties with. */
  lemma TiesExclusive<T(!new)>(cmp: (T, T) -> real, x: T, y: T, e: T)
    requires LawfulComparator(cmp)
    requires cmp(y, x) > 0.0
    ensures !(cmp(x, e) == 0.0 && cmp(y, e) == 0.0)
  {
    if cmp(x, e) == 0.0 && cmp(y, e) == 0.0 {
      Transitive(cmp, y, e, x);
    }
  }

  ghost predicate Sorted<T>(cmp: (T, T) -> real, s: seq<T>) {
    forall i, j :: 0 <= i < j < |s| ==> cmp(s[i], s[j]) <= 0.0
  }

  /** Inserts `x`, which comes after every element of `ys` in the input,
      behind every element it does not strictly precede. */
  function InsertLast<T>(cmp: (T, T) -> real, ys: seq<T>, x: T): (r: seq<T>)
    ensures |r| == |ys| + 1
  {
    if ys == [] then [x]
    else if cmp(ys[|ys| - 1], x) > 0.0 then InsertLast(cmp, ys[..|ys| - 1], x) + [ys[|ys| - 1]]
    else ys + [x]
  }

  function Sort<T>(cmp: (T, T) -> real, s: seq<T>): (r: seq<T>)
    ensures |r| == |s|
  {
    if s == [] then [] else InsertLast(cmp, Sort(cmp, s[..|s| - 1]), s[|s| - 1])
  }

  /** Sorting one more element of the input inserts it into the sorted prefix. */
  lemma SortSnoc<T>(cmp: (T, T) -> real, s: seq<T>, i: nat)
    requires i < |s|
    ensures Sort(cmp, s[..i + 1]) == InsertLast(cmp, Sort(cmp, s[..i]), s[i])
  {
    assert s[..i + 1][..i] == s[..i];
  }

  /** `x` lands at position `j` when it strictly precedes everything from
      `j` on and nothing before `j` strictly precedes it: the insertion by
      shifting of an in-place insertion sort. */
  lemma {:induction false} InsertLastPosition<T>(cmp: (T, T) -> real, ys: seq<T>, j: nat, x: T)
    requires j <= |ys|
    requires j == 0 || cmp(ys[j - 1], x) <= 0.0
    requires forall k :: j <= k < |ys| ==> cmp(ys[k], x) > 0.0
    ensures InsertLast(cmp, ys, x) == ys[..j] + [x] + ys[j..]
    decreases |ys|
  {
    if j == |ys| {
      assert ys[..j] == ys && ys[j..] == [];
      if j > 0 {
        assert ys[|ys| - 1] == ys[j - 1];
      }
    } else {
      var init, last := ys[..|ys| - 1], ys[|ys| - 1];
      assert cmp(last, x) > 0.0;
      forall k | j <= k < |init| ensures cmp(init[k], x) > 0.0 {
        assert init[k] == ys[k];
      }
      if j > 0 {
        assert init[j - 1] == ys[j - 1];
      }
      InsertLastPosition(cmp, init, j, x);
      assert init[..j] == ys[..j];
      assert init[j..] + [last] == ys[j..];
    }
  }

  lemma {:induction false} InsertLastMultiset<T>(cmp: (T, T) -> real, ys: seq<T>, x: T)
    ensures multiset(InsertLast(cmp, ys, x)) == multiset(ys) + multiset{x}
    decreases |ys|
  {
    if ys != [] {
      var init, last := ys[..|ys| - 1], ys[|ys| - 1];
      assert ys == init + [last];
      if cmp(last, x) > 0.0 {
        InsertLastMultiset(cmp, init, x);
      }
    }
  }

  lemma SortedPrefix<T>(cmp: (T, T) -> real, s: seq<T>, n: nat)
    requires Sorted(cmp, s) && n <= |s|
    ensures Sorted(cmp, s[..n])
  {
    assert forall i :: 0 <= i < n ==> s[..n][i] == s[i];
  }

  /** Appending an element that everything may stay before keeps a
      sequence sorted. */
  lemma SortedSnoc<T>(cmp: (T, T) -> real, m: seq<T>, y: T)
    requires Sorted(cmp, m)
    requires forall i :: 0 <= i < |m| ==> cmp(m[i], y) <= 0.0
    ensures Sorted(cmp, m + [y])
  {
    var r := m + [y];
    forall i, j | 0 <= i < j < |r| ensures cmp(r[i], r[j]) <= 0.0 {
      assert r[i] == m[i];
      if j < |m| {
        assert r[j] == m[j];
      }
    }
  }

  /** When every element of `init` may stay before `last` and `x` must come
      before `last`, every element of the insertion of `x` may stay before
      `last`. */
  lemma BeforeLast<T(!new)>(cmp: (T, T) -> real, init: seq<T>, last: T, x: T)
    requires LawfulComparator(cmp)
    requires forall k :: 0 <= k < |init| ==> cmp(init[k], last) <= 0.0
    requires cmp(last, x) > 0.0
    ensures forall i :: 0 <= i < |InsertLast(cmp, init, x)| ==> cmp(InsertLast(cmp, init, x)[i], last) <= 0.0
  {
    var m := InsertLast(cmp, init, x);
    InsertLastMultiset(cmp, init, x);
    forall i | 0 <= i < |m| ensures cmp(m[i], last) <= 0.0 {
      assert m[i] in multiset(m);
      if m[i] != x {
        assert m[i] in multiset(init);
        var k :| 0 <= k < |init| && init[k] == m[i];
      }
    }
  }

  lemma {:induction false} InsertLastSorted<T(!new)>(cmp: (T, T) -> real, ys: seq<T>, x: T)
    requires LawfulComparator(cmp)
    requires Sorted(cmp, ys)
    ensures Sorted(cmp, InsertLast(cmp, ys, x))
    decreases |ys|
  {
    if ys != [] {
      var init, last := ys[..|ys| - 1], ys[|ys| - 1];
      if cmp(last, x) > 0.0 {
        SortedPrefix(cmp, ys, |ys| - 1);
        InsertLastSorted(cmp, init, x);
        forall k | 0 <= k < |init| ensures cmp(init[k], last) <= 0.0 {
          assert init[k] == ys[k];
        }
        BeforeLast(cmp, init, last, x);
        SortedSnoc(cmp, InsertLast(cmp, init, x), last);
      } else {
        forall i | 0 <= i < |ys| ensures cmp(ys[i], x) <= 0.0 {
          if i < |ys| - 1 {
            Transitive(cmp, ys[i], last, x);
          }
        }
        SortedSnoc(cmp, ys, x);
      }
    }
  }

  /** The sort returns a permutation of its input in comparator order. */
  lemma {:induction false} SortCorrect<T(!new)>(cmp: (T, T) -> real, s: seq<T>)
    requires LawfulComparator(cmp)
    ensures Sorted(cmp, Sort(cmp, s))
    ensures multiset(Sort(cmp, s)) == multiset(s)
  {
    if s != [] {
      var init := s[..|s| - 1];
      SortCorrect(cmp, init);
      InsertLastSorted(cmp, Sort(cmp, init), s[|s| - 1]);
      InsertLastMultiset(cmp, Sort(cmp, init), s[|s| - 1]);
      assert s == init + [s[|s| - 1]];
    }
  }

  /** Sorting an already sorted sequence changes nothing. */
  lemma {:induction false} SortSortedIdentity<T>(cmp: (T, T) -> real, s: seq<T>)
    requires Sorted(cmp, s)
    ensures Sort(cmp, s) == s
  {
    if s != [] {
      var init := s[..|s| - 1];
      SortedPrefix(cmp, s, |s| - 1);
      SortSortedIdentity(cmp, init);
      assert init + [s[|s| - 1]] == s;
      if init != [] {
        assert init[|init| - 1] == s[|s| - 2];
      }
    }
  }

  // Stability: the elements that tie with any `e` keep their input order.

  function TiesWith<T>(cmp: (T, T) -> real, e: T): T -> bool {
    x => cmp(x, e) == 0.0
  }

  /** The elements of `s` that tie with `e`, in their order. */
  function Ties<T>(cmp: (T, T) -> real, s: seq<T>, e: T): seq<T> {
    Filter(TiesWith(cmp, e), s)
  }

  lemma {:induction false} InsertLastTies<T(!new)>(cmp: (T, T) -> real, ys: seq<T>, x: T, e: T)
    requires LawfulComparator(cmp)
    ensures Ties(cmp, InsertLast(cmp, ys, x), e) == Ties(cmp, ys, e) + Ties(cmp, [x], e)
    decreases |ys|
  {
    TiesSnoc(cmp, [], x, e);
    if ys == [] {
      assert [] + [x] == [x];
    } else {
      var init, last := ys[..|ys| - 1], ys[|ys| - 1];
      assert ys == init + [last];
      if cmp(last, x) > 0.0 {
        InsertLastTies(cmp, init, x, e);
        TiesPassed(cmp, InsertLast(cmp, init, x), init, last, x, e);
      } else {
        TiesSnoc(cmp, ys, x, e);
      }
    }
  }

  /** When `x` moves in front of `last`, the two cannot both tie with `e`,
      so their order among the ties is unchanged. */
  lemma TiesPassed<T(!new)>(cmp: (T, T) -> real, m: seq<T>, init: seq<T>, last: T, x: T, e: T)
    requires LawfulComparator(cmp)
    requires cmp(last, x) > 0.0
    requires Ties(cmp, m, e) == Ties(cmp, init, e) + Ties(cmp, [] + [x], e)
    ensures Ties(cmp, m + [last], e) == Ties(cmp, init + [last], e) + Ties(cmp, [] + [x], e)
  {
    TiesSnoc(cmp, m, last, e);
    TiesSnoc(cmp, init, last, e);
    TiesSnoc(cmp, [], x, e);
    TiesExclusive(cmp, x, last, e);
  }

  /** The sort is stable. */
  lemma {:induction false} SortStable<T(!new)>(cmp: (T, T) -> real, s: seq<T>, e: T)
    requires LawfulComparator(cmp)
    ensures Ties(cmp, Sort(cmp, s), e) == Ties(cmp, s, e)
  {
    if s != [] {
      var init := s[..|s| - 1];
      SortStable(cmp, init, e);
      InsertLastTies(cmp, Sort(cmp, init), s[|s| - 1], e);
      assert s == init + [s[|s| - 1]];
      FilterAppend(TiesWith(cmp, e), init, [s[|s| - 1]]);
    }
  }

  /** Every element of a sorted sequence may stay before its last element. */
  lemma LastIsGreatest<T(!new)>(cmp: (T, T) -> real, s: seq<T>, e: T)
    requires LawfulComparator(cmp)
    requires s != [] && Sorted(cmp, s) && e in s
    ensures cmp(e, s[|s| - 1]) <= 0.0
  {
    var i :| 0 <= i < |s| && s[i] == e;
    if i == |s| - 1 {
      assert cmp(e, e) == -cmp(e, e);
    }
  }

  lemma TiesSnoc<T>(cmp: (T, T) -> real, init: seq<T>, x: T, e: T)
    ensures Ties(cmp, init + [x], e) == Ties(cmp, init, e) + (if cmp(x, e) == 0.0 then [x] else [])
  {
    FilterAppend(TiesWith(cmp, e), init, [x]);
  }

  lemma AppendCancel<T>(a: seq<T>, b: seq<T>, x: seq<T>)
    requires a + x == b + x
    ensures a == b
  {
    assert a == (a + x)[..|a|];
    assert b == (b + x)[..|b|];
  }

  /** Two sorted arrangements of one multiset end in elements that tie. */
  lemma LastTie<T(!new)>(cmp: (T, T) -> real, r1: seq<T>, r2: seq<T>)
    requires LawfulComparator(cmp)
    requires Sorted(cmp, r1) && Sorted(cmp, r2)
    requires multiset(r1) == multiset(r2)
    requires r1 != [] && r2 != []
    ensures cmp(r2[|r2| - 1], r1[|r1| - 1]) == 0.0
  {
    var a, b := r1[|r1| - 1], r2[|r2| - 1];
    assert b in multiset(r2);
    assert a in multiset(r1);
    LastIsGreatest(cmp, r1, b);
    LastIsGreatest(cmp, r2, a);
  }

  /** Two sorted, stable arrangements of one multiset end in the same element. */
  lemma SameLast<T(!new)>(cmp: (T, T) -> real, r1: seq<T>, r2: seq<T>)
    requires LawfulComparator(cmp)
    requires Sorted(cmp, r1) && Sorted(cmp, r2)
    requires multiset(r1) == multiset(r2)
    requires r1 != []
    requires Ties(cmp, r1, r1[|r1| - 1]) == Ties(cmp, r2, r1[|r1| - 1])
    ensures |r1| == |r2| && r1[|r1| - 1] == r2[|r2| - 1]
  {
    assert |r1| == |multiset(r1)| == |multiset(r2)| == |r2|;
    var n := |r1|;
    var a, b := r1[n - 1], r2[n - 1];
    LastTie(cmp, r1, r2);
    assert cmp(a, a) == 0.0;
    assert r1 == r1[..n - 1] + [a];
    assert r2 == r2[..n - 1] + [b];
    TiesSnoc(cmp, r1[..n - 1], a, a);
    TiesSnoc(cmp, r2[..n - 1], b, a);
    var t := Ties(cmp, r1, a);
    assert t[|t| - 1] == a;
    assert t[|t| - 1] == b;
  }

  /** Dropping a common last element keeps the ties equal. */
  lemma InitTies<T>(cmp: (T, T) -> real, init1: seq<T>, init2: seq<T>, a: T)
    requires forall e :: Ties(cmp, init1 + [a], e) == Ties(cmp, init2 + [a], e)
    ensures forall e :: Ties(cmp, init1, e) == Ties(cmp, init2, e)
  {
    forall e ensures Ties(cmp, init1, e) == Ties(cmp, init2, e) {
      TiesSnoc(cmp, init1, a, e);
      TiesSnoc(cmp, init2, a, e);
      AppendCancel(Ties(cmp, init1, e), Ties(cmp, init2, e), if cmp(a, e) == 0.0 then [a] else []);
    }
  }

  /** A sorted, stable permutation is unique: any stable sort of `s`
      produces Sort(cmp, s). */
  lemma {:induction false} StableSortUnique<T(!new)>(cmp: (T, T) -> real, r1: seq<T>, r2: seq<T>)
    requires LawfulComparator(cmp)
    requires Sorted(cmp, r1) && Sorted(cmp, r2)
    requires multiset(r1) == multiset(r2)
    requires forall e :: Ties(cmp, r1, e) == Ties(cmp, r2, e)
    ensures r1 == r2
    decreases |r1|
  {
    if r1 == [] {
      assert |r2| == |multiset(r2)| == 0;
    } else {
      var n := |r1|;
      var a := r1[n - 1];
      assert Ties(cmp, r1, a) == Ties(cmp, r2, a);
      SameLast(cmp, r1, r2);
      var init1, init2 := r1[..n - 1], r2[..n - 1];
      assert r1 == init1 + [a];
      assert r2 == init2 + [a];
      InitTies(cmp, init1, init2, a);
      assert multiset(r1) == multiset(init1) + multiset{a};
      assert multiset(r2) == multiset(init2) + multiset{a};
      assert multiset(init1) == multiset(r1) - multiset{a};
      assert multiset(init2) == multiset(r2) - multiset{a};
      SortedPrefix(cmp, r1, n - 1);
      SortedPrefix(cmp, r2, n - 1);
      StableSortUnique(cmp, init1, init2);
    }
  }

  /** The sort is the stable sort: sorted, a permutation, stable, and the
      only sequence that is all three. */
  lemma SortIsTheStableSort<T(!new)>(cmp: (T, T) -> real, s: seq<T>, r: seq<T>)
    requires LawfulComparator(cmp)
    ensures Sorted(cmp, Sort(cmp, s)) && multiset(Sort(cmp, s)) == multiset(s)
    ensures forall e :: Ties(cmp, Sort(cmp, s), e) == Ties(cmp, s, e)
    ensures Sorted(cmp, r) && multiset(r) == multiset(s) && (forall e :: Ties(cmp, r, e) == Ties(cmp, s, e))
      ==> r == Sort(cmp, s)
  {
    SortCorrect(cmp, s);
    forall e ensures Ties(cmp, Sort(cmp, s), e) == Ties(cmp, s, e) {
      SortStable(cmp, s, e);
    }
    if Sorted(cmp, r) && multiset(r) == multiset(s) && (forall e :: Ties(cmp, r, e) == Ties(cmp, s, e)) {
      StableSortUnique(cmp, r, Sort(cmp, s));
    }
  }
}
