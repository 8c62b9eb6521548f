/** Shared vocabulary: optional and failing results, and the few sequence notions the
    components have in common. */
module Prelude {

  datatype Option<+T> = None | Some(value: T)

  datatype Result<+T, +E> = Success(value: T) | Failure(error: E)

  predicate Distinct<T(==)>(s: seq<T>) {
    forall i, j :: 0 <= i < j < |s| ==> s[i] != s[j]
  }

  /** The elements of `s` that satisfy `keep`, in their order. */
  function Filter<T(!new)>(s: seq<T>, keep: T -> bool): (r: seq<T>)
    ensures |r| <= |s|
    ensures forall x :: x in r <==> x in s && keep(x)
  {
    if s == [] then []
    else if keep(s[0]) then [s[0]] + Filter(s[1..], keep)
    else Filter(s[1..], keep)
  }

  lemma {:induction false} FilterOfMore<T(!new)>(s: seq<T>, last: T, keep: T -> bool)
    ensures Filter(s + [last], keep) == Filter(s, keep) + if keep(last) then [last] else []
  {
    if s != [] {
      assert (s + [last])[1..] == s[1..] + [last];
      FilterOfMore(s[1..], last, keep);
    }
  }

  predicate Increasing(at: seq<nat>) {
    forall i, j :: 0 <= i < j < |at| ==> at[i] < at[j]
  }

  /** `kept` are exactly the items of `s` to be kept, in their order: those at the positions `at`. */
  ghost predicate KeptAt<T(!new)>(s: seq<T>, keep: T -> bool, kept: seq<T>, at: seq<nat>) {
    && |at| == |kept| && Increasing(at)
    && (forall k :: 0 <= k < |at| ==> at[k] < |s| && s[at[k]] == kept[k])
    && (forall i :: 0 <= i < |s| ==> (keep(s[i]) <==> i in at))
  }

  lemma KeepOneMore<T(!new)>(s: seq<T>, last: T, keep: T -> bool, kept: seq<T>, at: seq<nat>)
    requires KeptAt(s, keep, kept, at)
    ensures keep(last) ==> KeptAt(s + [last], keep, kept + [last], at + [|s|])
    ensures !keep(last) ==> KeptAt(s + [last], keep, kept, at)
  {
    assert forall i: nat :: i in at + [|s|] <==> i in at || i == |s|;
    assert |s| !in at;
  }

  lemma {:induction false} FilterPositions<T(!new)>(s: seq<T>, keep: T -> bool) returns (at: seq<nat>)
    ensures KeptAt(s, keep, Filter(s, keep), at)
  {
    if s == [] {
      at := [];
    } else {
      var before, last := s[..|s| - 1], s[|s| - 1];
      at := FilterPositions(before, keep);
      FilterOfMore(before, last, keep);
      KeepOneMore(before, last, keep, Filter(before, keep), at);
      assert s == before + [last];
      if keep(last) {
        at := at + [|before|];
      } else {
        assert Filter(s, keep) == Filter(before, keep);
      }
    }
  }

  function Map<A, B>(s: seq<A>, f: A -> B): (r: seq<B>)
    ensures |r| == |s|
    ensures forall i :: 0 <= i < |s| ==> r[i] == f(s[i])
  {
    if s == [] then [] else [f(s[0])] + Map(s[1..], f)
  }

  function Flatten<T>(ss: seq<seq<T>>): seq<T> {
    if ss == [] then [] else Flatten(ss[..|ss| - 1]) + ss[|ss| - 1]
  }

  function Max(a: int, b: int): int {
    if a < b then b else a
  }

  function Min(a: int, b: int): int {
    if a < b then a else b
  }

  lemma Assoc<T>(a: seq<T>, b: seq<T>, c: seq<T>)
    ensures (a + b) + c == a + (b + c)
  {
  }

  lemma CutInFront<T>(a: seq<T>, b: seq<T>, k: nat)
    requires k <= |a|
    ensures (a + b)[..k] == a[..k] && (a + b)[k..] == a[k..] + b
  {
  }

  /** The elements of `s` without repetition, each at its first place. */
  function Unique<T(==, !new)>(s: seq<T>): (r: seq<T>)
    ensures |r| <= |s| && (r == [] <==> s == [])
    ensures forall x :: x in r <==> x in s
  {
    if s == [] then []
    else
      var r, last := Unique(s[..|s| - 1]), s[|s| - 1];
      if last in r then r else r + [last]
  }

  function FirstIndex<T(==)>(s: seq<T>, x: T): (i: nat)
    requires x in s
    ensures i < |s| && s[i] == x && x !in s[..i]
  {
    if s[0] == x then 0
    else
      var i := FirstIndex(s[1..], x);
      assert s[..i + 1] == [s[0]] + s[1..][..i];
      i + 1
  }

  lemma UniqueOfMore<T(!new)>(s: seq<T>, x: T)
    ensures Unique(s + [x]) == if x in s then Unique(s) else Unique(s) + [x]
  {
  }

  lemma {:induction false} FirstIndexOfMore<T>(s: seq<T>, last: T, x: T)
    requires x in s
    ensures FirstIndex(s + [last], x) == FirstIndex(s, x)
  {
    if s[0] != x {
      assert (s + [last])[1..] == s[1..] + [last];
      FirstIndexOfMore(s[1..], last, x);
    }
  }

  /** Unique keeps the order of first occurrence. */
  lemma {:induction false} UniqueMeaning<T(!new)>(s: seq<T>)
    ensures Distinct(Unique(s))
    ensures forall i, j :: 0 <= i < j < |Unique(s)| ==> FirstIndex(s, Unique(s)[i]) < FirstIndex(s, Unique(s)[j])
  {
    if s != [] {
      var before, last := s[..|s| - 1], s[|s| - 1];
      UniqueMeaning(before);
      assert s == before + [last];
      forall x | x in before
        ensures FirstIndex(s, x) == FirstIndex(before, x) < |before|
      {
        FirstIndexOfMore(before, last, x);
      }
      if last !in before {
        assert FirstIndex(s, last) == |before|;
      }
    }
  }

  lemma {:induction false} UniqueOfDistinct<T(!new)>(s: seq<T>)
    requires Distinct(s)
    ensures Unique(s) == s
  {
    if s != [] {
      UniqueOfDistinct(s[..|s| - 1]);
      assert s == s[..|s| - 1] + [s[|s| - 1]];
    }
  }

  // ---------------------------------------------------------------- sorting

  function Insert<T>(before: (T, T) -> bool, x: T, sorted: seq<T>): seq<T> {
    if sorted == [] || !before(sorted[0], x) then [x] + sorted else [sorted[0]] + Insert(before, x, sorted[1..])
  }

  /** A stable sort. */
  function Sort<T>(before: (T, T) -> bool, s: seq<T>): seq<T> {
    if s == [] then [] else Insert(before, s[0], Sort(before, s[1..]))
  }

  lemma {:induction false} SortKeeps<T>(before: (T, T) -> bool, s: seq<T>)
    ensures multiset(Sort(before, s)) == multiset(s)
  {
    if s != [] {
      SortKeeps(before, s[1..]);
      InsertKeeps(before, s[0], Sort(before, s[1..]));
      assert s == [s[0]] + s[1..];
    }
  }

  lemma {:induction false} InsertKeeps<T>(before: (T, T) -> bool, x: T, sorted: seq<T>)
    ensures multiset(Insert(before, x, sorted)) == multiset(sorted) + multiset{x}
  {
    if sorted != [] && before(sorted[0], x) {
      InsertKeeps(before, x, sorted[1..]);
      assert sorted == [sorted[0]] + sorted[1..];
    }
  }

  lemma SortMembers<T(!new)>(before: (T, T) -> bool, s: seq<T>)
    ensures forall x :: x in Sort(before, s) <==> x in s
    ensures Distinct(s) ==> Distinct(Sort(before, s))
  {
    SortKeeps(before, s);
    forall x
      ensures x in Sort(before, s) <==> x in s
    {
      assert x in Sort(before, s) <==> x in multiset(Sort(before, s));
    }
    if Distinct(s) {
      Multiplicity(s);
      MultiplicityBack(Sort(before, s));
    }
  }

  lemma {:induction false} Multiplicity<T(!new)>(s: seq<T>)
    requires Distinct(s)
    ensures forall x :: multiset(s)[x] <= 1
  {
    if s != [] {
      Multiplicity(s[1..]);
      assert s == [s[0]] + s[1..];
      assert s[0] !in s[1..];
    }
  }

  lemma {:induction false} MultiplicityBack<T(!new)>(s: seq<T>)
    requires forall x :: multiset(s)[x] <= 1
    ensures Distinct(s)
  {
    if s != [] {
      assert s == [s[0]] + s[1..];
      assert forall x :: multiset(s)[x] == multiset(s[1..])[x] + if x == s[0] then 1 else 0;
      MultiplicityBack(s[1..]);
      assert multiset(s[1..])[s[0]] == 0;
      forall j | 1 <= j < |s|
        ensures s[j] != s[0]
      {
        assert s[j] == s[1..][j - 1] && s[1..][j - 1] in multiset(s[1..]);
      }
    }
  }

  ghost predicate StrictWeakOrder<T(!new)>(before: (T, T) -> bool) {
    && (forall a, b :: before(a, b) ==> !before(b, a))
    && (forall a, b, c :: !before(a, b) && !before(b, c) ==> !before(a, c))
  }

  predicate InOrder<T>(before: (T, T) -> bool, s: seq<T>) {
    forall i, j :: 0 <= i < j < |s| ==> !before(s[j], s[i])
  }

  lemma {:induction false} SortOrders<T(!new)>(before: (T, T) -> bool, s: seq<T>)
    requires StrictWeakOrder(before)
    ensures InOrder(before, Sort(before, s))
  {
    if s != [] {
      SortOrders(before, s[1..]);
      InsertOrders(before, s[0], Sort(before, s[1..]));
    }
  }

  lemma {:induction false} InsertOrders<T(!new)>(before: (T, T) -> bool, x: T, sorted: seq<T>)
    requires StrictWeakOrder(before) && InOrder(before, sorted)
    ensures InOrder(before, Insert(before, x, sorted))
  {
    if sorted != [] && before(sorted[0], x) {
      InsertOrders(before, x, sorted[1..]);
      InsertKeeps(before, x, sorted[1..]);
      var rest := Insert(before, x, sorted[1..]);
      forall j | 0 <= j < |rest|
        ensures !before(rest[j], sorted[0])
      {
        assert rest[j] in multiset(rest);
        assert rest[j] == x || rest[j] in sorted[1..];
      }
    }
  }
}
