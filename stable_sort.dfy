/**
  A stable insertion sort over a caller-supplied "comes no later than" relation.
  The renderer sorts with Array.prototype.sort, which the language standard
  requires to be stable; a comparator `cmp` is turned into `le(a, b) == cmp(a, b) <= 0`.
 */
module StableSort {

  /** `le` is total and transitive: a comparator that never contradicts itself. */
  ghost predicate TotalPreorder<T(!new)>(le: (T, T) -> bool) {
    (forall a, b :: le(a, b) || le(b, a)) &&
    (forall a, b, c :: le(a, b) && le(b, c) ==> le(a, c))
  }

  ghost predicate Sorted<T>(s: seq<T>, le: (T, T) -> bool) {
    forall i, j :: 0 <= i < j < |s| ==> le(s[i], s[j])
  }

  /** Inserts `x` in front of the first element it may precede. */
  function Insert<T>(x: T, s: seq<T>, le: (T, T) -> bool): (r: seq<T>)
    ensures |r| == |s| + 1
  {
    if s == [] then [x]
    else if le(x, s[0]) then [x] + s
    else
      assert s == [s[0]] + s[1..];
      [s[0]] + Insert(x, s[1..], le)
  }

  function Sort<T>(s: seq<T>, le: (T, T) -> bool): (r: seq<T>)
    ensures |r| == |s|
  {
    if s == [] then []
    else
      Insert(s[0], Sort(s[1..], le), le)
  }

  /** Inserting adds `x` and loses nothing. */
  lemma {:induction false} InsertPermutes<T>(x: T, s: seq<T>, le: (T, T) -> bool)
    ensures multiset(Insert(x, s, le)) == multiset(s) + multiset{x}
  {
    if s != [] && !le(x, s[0]) {
      InsertPermutes(x, s[1..], le);
      assert s == [s[0]] + s[1..];
    }
  }

  /** The result is a rearrangement of the input. */
  lemma {:induction false} SortPermutes<T>(s: seq<T>, le: (T, T) -> bool)
    ensures multiset(Sort(s, le)) == multiset(s)
  {
    if s != [] {
      SortPermutes(s[1..], le);
      InsertPermutes(s[0], Sort(s[1..], le), le);
      assert s == [s[0]] + s[1..];
    }
  }

  lemma {:induction false} InsertSorted<T(!new)>(x: T, s: seq<T>, le: (T, T) -> bool)
    requires TotalPreorder(le) && Sorted(s, le)
    ensures Sorted(Insert(x, s, le), le)
  {
    if s != [] && !le(x, s[0]) {
      InsertSorted(x, s[1..], le);
      var r := Insert(x, s, le);
      var t := Insert(x, s[1..], le);
      InsertPermutes(x, s[1..], le);
      assert r == [s[0]] + t;
      forall j | 0 < j < |r| ensures le(r[0], r[j]) {
        assert r[j] in multiset(t);
        assert r[j] in multiset(s[1..]) + multiset{x};
        if r[j] == x {
        } else {
          assert r[j] in s[1..];
          var m :| 0 <= m < |s[1..]| && s[1..][m] == r[j];
          assert s[m + 1] == r[j];
        }
      }
    }
  }

  /** The result is ordered by `le`. */
  lemma {:induction false} SortSorted<T(!new)>(s: seq<T>, le: (T, T) -> bool)
    requires TotalPreorder(le)
    ensures Sorted(Sort(s, le), le)
  {
    if s != [] {
      SortSorted(s[1..], le);
      InsertSorted(s[0], Sort(s[1..], le), le);
    }
  }

  /** A list already in order is left as it is. */
  lemma {:induction false} SortOfSorted<T>(s: seq<T>, le: (T, T) -> bool)
    requires Sorted(s, le)
    ensures Sort(s, le) == s
  {
    if s != [] {
      assert Sorted(s[1..], le);
      SortOfSorted(s[1..], le);
      assert s == [s[0]] + s[1..];
    }
  }

  /** The elements `le`-equivalent to `e`, in their order in `s`. */
  function Equivalents<T>(s: seq<T>, le: (T, T) -> bool, e: T): (r: seq<T>)
    ensures |r| <= |s|
  {
    if s == [] then []
    else (if le(s[0], e) && le(e, s[0]) then [s[0]] else []) + Equivalents(s[1..], le, e)
  }

  /** `[e]` when `x` is `le`-equivalent to `e`, otherwise `[]`. */
  function IfEquivalent<T>(x: T, le: (T, T) -> bool, e: T): seq<T> {
    if le(x, e) && le(e, x) then [x] else []
  }

  lemma EquivalentsCons<T>(h: T, t: seq<T>, le: (T, T) -> bool, e: T)
    ensures Equivalents([h] + t, le, e) == IfEquivalent(h, le, e) + Equivalents(t, le, e)
  {
    assert ([h] + t)[0] == h && ([h] + t)[1..] == t;
  }

  /** Inserting `x` adds `x` to the elements equivalent to `e` in front of them,
      if it is equivalent to `e`: it is never placed after an equivalent element. */
  lemma {:induction false} InsertStable<T(!new)>(x: T, s: seq<T>, le: (T, T) -> bool, e: T)
    requires TotalPreorder(le)
    ensures Equivalents(Insert(x, s, le), le, e) == IfEquivalent(x, le, e) + Equivalents(s, le, e)
  {
    if s == [] {
      EquivalentsCons(x, [], le, e);
    } else if le(x, s[0]) {
      EquivalentsCons(x, s, le, e);
    } else {
      var h := s[0];
      var r := Insert(x, s[1..], le);
      InsertStable(x, s[1..], le, e);
      assert Insert(x, s, le) == [h] + r;
      EquivalentsCons(h, r, le, e);
      EquivalentsCons(h, s[1..], le, e);
      assert s == [h] + s[1..];
      // h strictly precedes x, so h and x are never both equivalent to e
      assert le(x, e) && le(e, h) ==> le(x, h);
      assert IfEquivalent(h, le, e) == [] || IfEquivalent(x, le, e) == [];
    }
  }

  /** Stability: elements that compare equal keep their relative order. */
  lemma {:induction false} SortStable<T(!new)>(s: seq<T>, le: (T, T) -> bool, e: T)
    requires TotalPreorder(le)
    ensures Equivalents(Sort(s, le), le, e) == Equivalents(s, le, e)
  {
    if s != [] {
      SortStable(s[1..], le, e);
      InsertStable(s[0], Sort(s[1..], le), le, e);
      EquivalentsCons(s[0], s[1..], le, e);
      assert s == [s[0]] + s[1..];
    }
  }

  /** A prefix one longer is the prefix and the next element. */
  lemma PrefixSnoc<T>(s: seq<T>, k: nat)
    requires k < |s|
    ensures s[..k + 1] == s[..k] + [s[k]]
  {
  }

  /** Applies `f` to every element. */
  function Map<T>(f: T -> T, s: seq<T>): (r: seq<T>)
    ensures |r| == |s|
    ensures forall i :: 0 <= i < |s| ==> r[i] == f(s[i])
  {
    if s == [] then [] else [f(s[0])] + Map(f, s[1..])
  }

  lemma {:induction false} InsertMap<T>(f: T -> T, x: T, s: seq<T>, le: (T, T) -> bool)
    requires forall a, b :: le(f(a), f(b)) == le(a, b)
    ensures Insert(f(x), Map(f, s), le) == Map(f, Insert(x, s, le))
  {
    if s != [] {
      assert Map(f, s)[0] == f(s[0]);
      assert Map(f, s)[1..] == Map(f, s[1..]);
      if !le(x, s[0]) {
        InsertMap(f, x, s[1..], le);
      }
    }
  }

  /** Sorting commutes with a map that does not change how elements compare. */
  lemma {:induction false} SortMap<T>(f: T -> T, s: seq<T>, le: (T, T) -> bool)
    requires forall a, b :: le(f(a), f(b)) == le(a, b)
    ensures Sort(Map(f, s), le) == Map(f, Sort(s, le))
  {
    if s != [] {
      assert Map(f, s)[0] == f(s[0]);
      assert Map(f, s)[1..] == Map(f, s[1..]);
      SortMap(f, s[1..], le);
      InsertMap(f, s[0], Sort(s[1..], le), le);
    }
  }
}
