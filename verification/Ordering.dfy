/** Stable sorting and filtering, as Python's `sorted` and list comprehensions provide them. */
module Ordering {

  ghost predicate TotalPreorder<T(!new)>(le: (T, T) -> bool) {
    && (forall x, y :: le(x, y) || le(y, x))
    && (forall x, y, z :: le(x, y) && le(y, z) ==> le(x, z))
  }

  ghost predicate SortedBy<T>(s: seq<T>, le: (T, T) -> bool) {
    forall i, j | 0 <= i < j < |s| :: le(s[i], s[j])
  }

  ghost predicate Distinct<T>(s: seq<T>) {
    forall x, y | 0 <= x < y < |s| :: s[x] != s[y]
  }

  function Filter<T(!new)>(s: seq<T>, p: T -> bool): (r: seq<T>)
    ensures forall x :: x in r <==> x in s && p(x)
    ensures |r| <= |s|
  {
    if s == [] then [] else (if p(s[0]) then [s[0]] else []) + Filter(s[1..], p)
  }

  /** The items that do not satisfy `p`, in order. */
  function Reject<T(!new)>(s: seq<T>, p: T -> bool): (r: seq<T>)
    ensures forall x :: x in r <==> x in s && !p(x)
    ensures |r| <= |s|
  {
    if s == [] then [] else (if p(s[0]) then [] else [s[0]]) + Reject(s[1..], p)
  }

  function Insert<T>(x: T, s: seq<T>, le: (T, T) -> bool): seq<T> {
    if s == [] then [x]
    else if le(x, s[0]) then [x] + s
    else [s[0]] + Insert(x, s[1..], le)
  }

  function SortBy<T>(s: seq<T>, le: (T, T) -> bool): seq<T> {
    if s == [] then [] else Insert(s[0], SortBy(s[1..], le), le)
  }

  lemma FilterCons<T(!new)>(x: T, s: seq<T>, p: T -> bool)
    ensures Filter([x] + s, p) == if p(x) then [x] + Filter(s, p) else Filter(s, p)
    ensures Reject([x] + s, p) == if p(x) then Reject(s, p) else [x] + Reject(s, p)
  {
    assert ([x] + s)[0] == x && ([x] + s)[1..] == s;
  }

  lemma {:induction false} FilterConcat<T(!new)>(a: seq<T>, b: seq<T>, p: T -> bool)
    ensures Filter(a + b, p) == Filter(a, p) + Filter(b, p)
  {
    if a == [] {
      assert a + b == b;
    } else {
      assert (a + b)[0] == a[0] && (a + b)[1..] == a[1..] + b;
      FilterConcat(a[1..], b, p);
    }
  }

  lemma {:induction false} FilterAll<T(!new)>(s: seq<T>, p: T -> bool)
    requires forall x | x in s :: p(x)
    ensures Filter(s, p) == s
  {
    if s != [] {
      FilterAll(s[1..], p);
      assert s == [s[0]] + s[1..];
    }
  }

  lemma {:induction false} RejectConcat<T(!new)>(a: seq<T>, b: seq<T>, p: T -> bool)
    ensures Reject(a + b, p) == Reject(a, p) + Reject(b, p)
  {
    if a == [] {
      assert a + b == b;
    } else {
      assert (a + b)[0] == a[0] && (a + b)[1..] == a[1..] + b;
      RejectConcat(a[1..], b, p);
    }
  }

  lemma FilterOne<T(!new)>(x: T, p: T -> bool)
    ensures Filter([x], p) == if p(x) then [x] else []
    ensures Reject([x], p) == if p(x) then [] else [x]
  {
    assert [x][1..] == [];
  }

  lemma FilterSnoc<T(!new)>(s: seq<T>, x: T, p: T -> bool)
    ensures Filter(s + [x], p) == if p(x) then Filter(s, p) + [x] else Filter(s, p)
    ensures Reject(s + [x], p) == if p(x) then Reject(s, p) else Reject(s, p) + [x]
  {
    FilterConcat(s, [x], p);
    RejectConcat(s, [x], p);
    FilterOne(x, p);
  }

  lemma {:induction false} RejectNone<T(!new)>(s: seq<T>, p: T -> bool)
    requires forall x | x in s :: !p(x)
    ensures Reject(s, p) == s && Filter(s, p) == []
  {
    if s != [] {
      RejectNone(s[1..], p);
      assert s == [s[0]] + s[1..];
    }
  }

  /** Splitting a list in two loses nothing. */
  lemma {:induction false} FilterCount<T(!new)>(s: seq<T>, p: T -> bool, x: T)
    ensures multiset(Filter(s, p))[x] == if p(x) then multiset(s)[x] else 0
    ensures multiset(Reject(s, p))[x] == if p(x) then 0 else multiset(s)[x]
  {
    if s != [] {
      var h, t := s[0], s[1..];
      FilterCount(t, p, x);
      assert s == [h] + t;
      assert Filter(s, p) == (if p(h) then [h] else []) + Filter(t, p);
      assert Reject(s, p) == (if p(h) then [] else [h]) + Reject(t, p);
    }
  }

  /** Splitting a list in two loses nothing. */
  lemma FilterSplits<T(!new)>(s: seq<T>, p: T -> bool)
    ensures multiset(Filter(s, p)) + multiset(Reject(s, p)) == multiset(s)
  {
    forall x ensures (multiset(Filter(s, p)) + multiset(Reject(s, p)))[x] == multiset(s)[x] {
      FilterCount(s, p, x);
    }
  }

  lemma KeepsAllIffNoneLeave<T(!new)>(s: seq<T>, p: T -> bool)
    ensures Filter(s, p) == [] ==> Reject(s, p) == s
  {
    if Filter(s, p) == [] {
      forall x | x in s ensures !p(x) { assert p(x) ==> x in Filter(s, p); }
      RejectNone(s, p);
    }
  }

  /** Rejecting items outside `q` does not disturb the items in `q`. */
  lemma {:induction false} FilterAfterReject<T(!new)>(s: seq<T>, p: T -> bool, q: T -> bool)
    requires forall x | x in s && q(x) :: !p(x)
    ensures Filter(Reject(s, p), q) == Filter(s, q)
  {
    if s != [] {
      FilterAfterReject(s[1..], p, q);
      var head := if p(s[0]) then [] else [s[0]];
      FilterConcat(head, Reject(s[1..], p), q);
    }
  }

  lemma {:induction false} InsertPermutes<T(!new)>(x: T, s: seq<T>, le: (T, T) -> bool)
    ensures multiset(Insert(x, s, le)) == multiset(s) + multiset{x}
    ensures |Insert(x, s, le)| == |s| + 1
  {
    if s == [] {
    } else if le(x, s[0]) {
      assert [x] + s == [x] + s;
    } else {
      InsertPermutes(x, s[1..], le);
      assert s == [s[0]] + s[1..];
    }
  }

  lemma {:induction false} SortPermutes<T(!new)>(s: seq<T>, le: (T, T) -> bool)
    ensures multiset(SortBy(s, le)) == multiset(s)
    ensures |SortBy(s, le)| == |s|
  {
    if s != [] {
      SortPermutes(s[1..], le);
      InsertPermutes(s[0], SortBy(s[1..], le), le);
      assert s == [s[0]] + s[1..];
    }
  }

  lemma SortKeepsItems<T(!new)>(s: seq<T>, le: (T, T) -> bool)
    ensures forall x :: x in SortBy(s, le) <==> x in s
  {
    SortPermutes(s, le);
    forall x ensures x in SortBy(s, le) <==> x in s {
      assert x in SortBy(s, le) <==> x in multiset(SortBy(s, le));
      assert x in s <==> x in multiset(s);
    }
  }

  lemma {:induction false} InsertSorts<T(!new)>(x: T, s: seq<T>, le: (T, T) -> bool)
    requires TotalPreorder(le) && SortedBy(s, le)
    ensures SortedBy(Insert(x, s, le), le)
  {
    if s != [] && !le(x, s[0]) {
      var rest := Insert(x, s[1..], le);
      InsertSorts(x, s[1..], le);
      InsertPermutes(x, s[1..], le);
      forall y | y in rest ensures le(s[0], y) {
        assert y in multiset(rest);
        assert y == x || y in s[1..];
      }
    }
  }

  /** Sorting yields an ordered list. */
  lemma {:induction false} SortSorts<T(!new)>(s: seq<T>, le: (T, T) -> bool)
    requires TotalPreorder(le)
    ensures SortedBy(SortBy(s, le), le)
  {
    if s != [] {
      SortSorts(s[1..], le);
      InsertSorts(s[0], SortBy(s[1..], le), le);
    }
  }

  lemma {:induction false} InsertStable<T(!new)>(x: T, s: seq<T>, le: (T, T) -> bool, tie: T -> bool)
    requires forall y | y in s && tie(x) && tie(y) :: le(x, y)
    ensures Filter(Insert(x, s, le), tie) == Filter([x] + s, tie)
  {
    if s != [] && !le(x, s[0]) {
      var h, t := s[0], s[1..];
      InsertStable(x, t, le, tie);
      assert s == [h] + t && h in s;
      FilterCons(h, Insert(x, t, le), tie);
      FilterCons(x, t, tie);
      FilterCons(h, t, tie);
      FilterCons(x, s, tie);
    }
  }

  /** Items that compare equal keep their original relative order. */
  lemma {:induction false} SortStable<T(!new)>(s: seq<T>, le: (T, T) -> bool, tie: T -> bool)
    requires forall x, y | x in s && y in s && tie(x) && tie(y) :: le(x, y)
    ensures Filter(SortBy(s, le), tie) == Filter(s, tie)
  {
    if s != [] {
      SortStable(s[1..], le, tie);
      SortKeepsItems(s[1..], le);
      InsertStable(s[0], SortBy(s[1..], le), le, tie);
      FilterConcat([s[0]], SortBy(s[1..], le), tie);
      FilterConcat([s[0]], s[1..], tie);
      assert s == [s[0]] + s[1..];
    }
  }
}
