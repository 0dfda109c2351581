/**
 * A stable sort over an arbitrary "comes strictly before" relation.
 *
 * The codec relies on Python's built-in `sorted`, which is stable: elements
 * that the key does not separate keep their input order. `Sort` below is an
 * insertion sort with that property; `SortedUnique` shows that any stable
 * sort gives the very same output, so the choice of algorithm is immaterial.
 */
module StableSort {

  /** `lt` is a strict weak order: the order induced by comparing sort keys. */
  ghost predicate StrictWeakOrder<T(!new)>(lt: (T, T) -> bool) {
    && (forall a :: !lt(a, a))
    && (forall a, b, c {:trigger lt(a, b), lt(b, c), lt(a, c)} :: lt(a, b) && lt(b, c) ==> lt(a, c))
    && (forall a, b, c {:trigger lt(a, b), lt(b, c), lt(a, c)} :: !lt(a, b) && !lt(b, c) ==> !lt(a, c))
  }

  /** Neither element comes before the other: their sort keys are equal. */
  predicate Equivalent<T>(lt: (T, T) -> bool, a: T, b: T) {
    !lt(a, b) && !lt(b, a)
  }

  /** No element is strictly before an element that precedes it. */
  ghost predicate Sorted<T>(s: seq<T>, lt: (T, T) -> bool) {
    forall i, j :: 0 <= i < j < |s| ==> !lt(s[j], s[i])
  }

  /** The elements of `s` whose key equals the key of `y`, in the order of `s`. */
  function SameRank<T>(s: seq<T>, y: T, lt: (T, T) -> bool): seq<T> {
    if s == [] then []
    else (if Equivalent(lt, s[0], y) then [s[0]] else []) + SameRank(s[1..], y, lt)
  }

  /** `SameRank` keeps only elements of `s` with the key of `y`. */
  lemma {:induction false} InSameRank<T>(s: seq<T>, y: T, lt: (T, T) -> bool, e: T)
    requires e in SameRank(s, y, lt)
    ensures e in s && Equivalent(lt, e, y)
  {
    if s[0] != e || !Equivalent(lt, s[0], y) {
      InSameRank(s[1..], y, lt, e);
    }
  }

  /** Puts `x` in front of the first element of `s` that is not strictly before it. */
  function Insert<T>(x: T, s: seq<T>, lt: (T, T) -> bool): seq<T> {
    if s == [] || !lt(s[0], x) then [x] + s
    else [s[0]] + Insert(x, s[1..], lt)
  }

  /** `Insert` adds `x` and loses nothing. */
  lemma {:induction false} InsertPermutes<T>(x: T, s: seq<T>, lt: (T, T) -> bool)
    ensures multiset(Insert(x, s, lt)) == multiset(s) + multiset{x}
  {
    if s != [] && lt(s[0], x) {
      InsertPermutes(x, s[1..], lt);
      assert s == [s[0]] + s[1..];
    }
  }

  /** Stable insertion sort: the model of Python's `sorted(s, key=...)`. */
  function Sort<T>(s: seq<T>, lt: (T, T) -> bool): (r: seq<T>)
    ensures multiset(r) == multiset(s)
  {
    if s == [] then []
    else
      assert s == [s[0]] + s[1..];
      InsertPermutes(s[0], Sort(s[1..], lt), lt);
      Insert(s[0], Sort(s[1..], lt), lt)
  }

  lemma SameRankCons<T>(h: T, t: seq<T>, y: T, lt: (T, T) -> bool)
    ensures SameRank([h] + t, y, lt) == (if Equivalent(lt, h, y) then [h] else []) + SameRank(t, y, lt)
  {
    assert ([h] + t)[0] == h && ([h] + t)[1..] == t;
  }

  lemma SameRankConcat<T>(a: seq<T>, b: seq<T>, y: T, lt: (T, T) -> bool)
    ensures SameRank(a + b, y, lt) == SameRank(a, y, lt) + SameRank(b, y, lt)
  {
    if a != [] {
      var head := if Equivalent(lt, a[0], y) then [a[0]] else [];
      assert (a + b)[0] == a[0] && (a + b)[1..] == a[1..] + b;
      SameRankConcat(a[1..], b, y, lt);
      calc {
        SameRank(a + b, y, lt);
        head + SameRank(a[1..] + b, y, lt);
        head + (SameRank(a[1..], y, lt) + SameRank(b, y, lt));
        (head + SameRank(a[1..], y, lt)) + SameRank(b, y, lt);
      }
    } else {
      assert a + b == b;
    }
  }

  lemma {:induction false} InsertSorted<T(!new)>(x: T, s: seq<T>, lt: (T, T) -> bool)
    requires StrictWeakOrder(lt) && Sorted(s, lt)
    ensures Sorted(Insert(x, s, lt), lt)
  {
    if s == [] || !lt(s[0], x) {
      var r := Insert(x, s, lt);
      forall i, j | 0 <= i < j < |r| ensures !lt(r[j], r[i]) {
        if i == 0 && j > 1 {
          assert !lt(s[j - 1], s[0]);
        }
      }
    } else {
      var t := Insert(x, s[1..], lt);
      InsertSorted(x, s[1..], lt);
      var r := [s[0]] + t;
      InsertPermutes(x, s[1..], lt);
      forall j | 1 <= j < |r| ensures !lt(r[j], s[0]) {
        assert r[j] in multiset(t);
        if r[j] == x {
          Asymmetric(s[0], x, lt);
        } else {
          assert r[j] in multiset(s[1..]);
          var k :| 0 <= k < |s[1..]| && s[1..][k] == r[j];
          assert !lt(s[k + 1], s[0]);
        }
      }
    }
  }

  /** `Sort` orders its input. */
  lemma {:induction false} SortSorted<T(!new)>(s: seq<T>, lt: (T, T) -> bool)
    requires StrictWeakOrder(lt)
    ensures Sorted(Sort(s, lt), lt)
  {
    if s != [] {
      SortSorted(s[1..], lt);
      InsertSorted(s[0], Sort(s[1..], lt), lt);
    }
  }

  lemma Asymmetric<T(!new)>(a: T, b: T, lt: (T, T) -> bool)
    requires StrictWeakOrder(lt) && lt(a, b)
    ensures !lt(b, a)
  {
    assert !lt(a, a);
  }

  /** Nothing strictly before `x` has the key of `y`, when `x` itself has that key. */
  ghost predicate NoneBeforeOfRank<T(!new)>(x: T, y: T, lt: (T, T) -> bool) {
    Equivalent(lt, x, y) ==> forall p :: lt(p, x) ==> !Equivalent(lt, p, y)
  }

  /** In a strict weak order, an element strictly before `x` does not share the key of `x`. */
  lemma BeforeIsNotSameRank<T(!new)>(x: T, y: T, lt: (T, T) -> bool)
    requires StrictWeakOrder(lt)
    ensures NoneBeforeOfRank(x, y, lt)
  {
  }

  lemma {:induction false} InsertSameRank<T(!new)>(x: T, s: seq<T>, y: T, lt: (T, T) -> bool)
    requires NoneBeforeOfRank(x, y, lt)
    ensures SameRank(Insert(x, s, lt), y, lt)
         == (if Equivalent(lt, x, y) then [x] else []) + SameRank(s, y, lt)
  {
    if s == [] || !lt(s[0], x) {
      assert Insert(x, s, lt) == [x] + s;
      SameRankCons(x, s, y, lt);
    } else {
      InsertSameRank(x, s[1..], y, lt);
      InsertSameRankStep(x, s, y, lt);
    }
  }

  /** The inductive step of `InsertSameRank`: `x` moves past an element strictly before it. */
  lemma InsertSameRankStep<T(!new)>(x: T, s: seq<T>, y: T, lt: (T, T) -> bool)
    requires NoneBeforeOfRank(x, y, lt) && s != [] && lt(s[0], x)
    requires SameRank(Insert(x, s[1..], lt), y, lt)
          == (if Equivalent(lt, x, y) then [x] else []) + SameRank(s[1..], y, lt)
    ensures SameRank(Insert(x, s, lt), y, lt)
         == (if Equivalent(lt, x, y) then [x] else []) + SameRank(s, y, lt)
  {
    var t := Insert(x, s[1..], lt);
    var h0 := if Equivalent(lt, s[0], y) then [s[0]] else [];
    var hx := if Equivalent(lt, x, y) then [x] else [];
    var rest := SameRank(s[1..], y, lt);
    assert Insert(x, s, lt) == [s[0]] + t;
    SameRankCons(s[0], t, y, lt);
    assert SameRank(Insert(x, s, lt), y, lt) == h0 + (hx + rest);
    assert SameRank(s, y, lt) == h0 + rest;
    if Equivalent(lt, x, y) {
      assert h0 == [];
    }
    EmptyFrontsCommute(h0, hx, rest);
  }

  /** Two fronts of which one is empty can be swapped. */
  lemma EmptyFrontsCommute<T>(a: seq<T>, b: seq<T>, c: seq<T>)
    requires a == [] || b == []
    ensures a + (b + c) == b + (a + c)
  {
    if a == [] {
      assert a + (b + c) == b + c && a + c == c;
    } else {
      assert b + c == c && b + (a + c) == a + c;
    }
  }

  /** Stability: for every key, `Sort` keeps the input order of the elements with that key. */
  lemma {:induction false} SortStable<T(!new)>(s: seq<T>, y: T, lt: (T, T) -> bool)
    requires StrictWeakOrder(lt)
    ensures SameRank(Sort(s, lt), y, lt) == SameRank(s, y, lt)
  {
    if s != [] {
      SortStable(s[1..], y, lt);
      BeforeIsNotSameRank(s[0], y, lt);
      InsertSameRank(s[0], Sort(s[1..], lt), y, lt);
    }
  }

  /** Every element has its own key. */
  lemma SelfRank<T(!new)>(s: seq<T>, lt: (T, T) -> bool)
    requires StrictWeakOrder(lt) && s != []
    ensures s[0] in SameRank(s, s[0], lt)
  {
    SameRankCons(s[0], s[1..], s[0], lt);
    assert s == [s[0]] + s[1..];
  }

  /** A sequence with no element of any key is empty. */
  lemma NoRankEmpty<T(!new)>(s: seq<T>, lt: (T, T) -> bool)
    requires StrictWeakOrder(lt)
    requires forall y :: SameRank(s, y, lt) == []
    ensures s == []
  {
    if s != [] {
      SelfRank(s, lt);
    }
  }

  /** The first element of a sequence is not strictly before the first element of a sorted one with its key. */
  lemma HeadNotBefore<T(!new)>(a: seq<T>, b: seq<T>, lt: (T, T) -> bool)
    requires StrictWeakOrder(lt) && Sorted(b, lt) && a != [] && b != []
    requires SameRank(a, a[0], lt) == SameRank(b, a[0], lt)
    ensures !lt(a[0], b[0])
  {
    SelfRank(a, lt);
    var u :| u in SameRank(b, a[0], lt);
    InSameRank(b, a[0], lt, u);
    var j :| 0 <= j < |b| && b[j] == u;
    assert !lt(b[j], b[0]) && !lt(a[0], b[j]);
  }

  /** The first element of a sorted sequence is fixed by what it holds key by key. */
  lemma SortedHeadsEqual<T(!new)>(a: seq<T>, b: seq<T>, lt: (T, T) -> bool)
    requires StrictWeakOrder(lt) && Sorted(a, lt) && Sorted(b, lt) && a != [] && b != []
    requires forall y :: SameRank(a, y, lt) == SameRank(b, y, lt)
    ensures a[0] == b[0]
  {
    var x, z := a[0], b[0];
    HeadNotBefore(a, b, lt);
    HeadNotBefore(b, a, lt);
    SameRankCons(x, a[1..], x, lt);
    SameRankCons(z, b[1..], x, lt);
    assert a == [x] + a[1..] && b == [z] + b[1..];
    var ta, tb := SameRank(a[1..], x, lt), SameRank(b[1..], x, lt);
    assert [x] + ta == [z] + tb;
    assert ([x] + ta)[0] == x && ([z] + tb)[0] == z;
  }

  /**
   * A sorted sequence is determined by what it holds for each key: two sorted
   * sequences that agree key by key are equal. Hence every stable sort
   * computes `Sort`.
   */
  lemma {:induction false} SortedUnique<T(!new)>(a: seq<T>, b: seq<T>, lt: (T, T) -> bool)
    requires StrictWeakOrder(lt) && Sorted(a, lt) && Sorted(b, lt)
    requires forall y :: SameRank(a, y, lt) == SameRank(b, y, lt)
    ensures a == b
  {
    if a == [] {
      NoRankEmpty(b, lt);
    } else if b == [] {
      NoRankEmpty(a, lt);
    } else {
      SortedHeadsEqual(a, b, lt);
      var x := a[0];
      assert a == [x] + a[1..] && b == [x] + b[1..];
      forall y ensures SameRank(a[1..], y, lt) == SameRank(b[1..], y, lt) {
        assert SameRank(a, y, lt) == SameRank(b, y, lt);
        SameRankCons(x, a[1..], y, lt);
        SameRankCons(x, b[1..], y, lt);
        var h := if Equivalent(lt, x, y) then [x] else [];
        var ta, tb := SameRank(a[1..], y, lt), SameRank(b[1..], y, lt);
        assert h + ta == h + tb;
        assert ta == (h + ta)[|h|..] && tb == (h + tb)[|h|..];
      }
      SortedUnique(a[1..], b[1..], lt);
    }
  }

  /** `Sort` is the identity on a sequence that is already sorted. */
  lemma SortOfSorted<T(!new)>(s: seq<T>, lt: (T, T) -> bool)
    requires StrictWeakOrder(lt) && Sorted(s, lt)
    ensures Sort(s, lt) == s
  {
    SortSorted(s, lt);
    forall y ensures SameRank(Sort(s, lt), y, lt) == SameRank(s, y, lt) {
      SortStable(s, y, lt);
    }
    SortedUnique(Sort(s, lt), s, lt);
  }
}
