/**
Sorting as the library routines promise it. `SortInts` stands for `sort.Slice` over
integers; `StableSort` for `sort.SliceStable`, whose result keeps the input order
of elements that compare equal.
*/
module Sorting {
  predicate Ascending(s: seq<int>) {
    forall i, j :: 0 <= i < j < |s| ==> s[i] <= s[j]
  }

  /** Where `x` goes: before the first element that is not smaller. */
  function Position(x: int, s: seq<int>): (p: nat)
    ensures p <= |s| && (forall i :: 0 <= i < p ==> s[i] < x) && (p < |s| ==> x <= s[p])
  {
    if s == [] || x <= s[0] then 0 else 1 + Position(x, s[1..])
  }

  function InsertInt(x: int, s: seq<int>): seq<int> {
    s[..Position(x, s)] + [x] + s[Position(x, s)..]
  }

  lemma AscendingGlue(a: seq<int>, x: int, b: seq<int>)
    requires Ascending(a) && Ascending(b)
    requires (forall i :: 0 <= i < |a| ==> a[i] <= x) && forall i :: 0 <= i < |b| ==> x <= b[i]
    ensures Ascending(a + [x] + b)
  {
  }

  lemma InsertIntSorts(x: int, s: seq<int>)
    requires Ascending(s)
    ensures Ascending(InsertInt(x, s)) && multiset(InsertInt(x, s)) == multiset{x} + multiset(s)
  {
    hide Position;
    var p := Position(x, s);
    AscendingGlue(s[..p], x, s[p..]);
    assert s == s[..p] + s[p..];
    assert multiset(s) == multiset(s[..p]) + multiset(s[p..]);
  }

  function SortInts(s: seq<int>): (r: seq<int>)
    ensures Ascending(r) && multiset(r) == multiset(s) && |r| == |s|
  {
    if s == [] then []
    else
      var rest := SortInts(s[1..]);
      InsertIntSorts(s[0], rest);
      assert s == [s[0]] + s[1..];
      InsertInt(s[0], rest)
  }

  lemma MultisetWithout<T>(s: seq<T>, k: nat)
    requires k < |s|
    ensures multiset(s[..k] + s[k + 1..]) == multiset(s) - multiset{s[k]}
  {
    assert s == s[..k] + [s[k]] + s[k + 1..];
  }

  predicate NoRepeats<T(==)>(s: seq<T>) {
    forall i, j :: 0 <= i < j < |s| ==> s[i] != s[j]
  }

  lemma Twice<T>(s: seq<T>, i: nat, j: nat)
    requires i < j < |s| && s[i] == s[j]
    ensures multiset(s)[s[i]] >= 2
  {
    assert s == s[..i] + [s[i]] + s[i + 1..j] + [s[j]] + s[j + 1..];
  }

  lemma OnceOnly<T>(s: seq<T>, k: nat)
    requires NoRepeats(s) && k < |s|
    ensures multiset(s)[s[k]] == 1
  {
    assert s == s[..k] + [s[k]] + s[k + 1..];
    assert s[k] !in s[..k] && s[k] !in s[k + 1..];
  }

  /** A rearrangement repeats nothing either. */
  lemma Rearranged<T>(all: seq<T>, s: seq<T>)
    requires NoRepeats(all) && multiset(s) == multiset(all)
    ensures NoRepeats(s)
  {
    forall i, j | 0 <= i < j < |s| ensures s[i] != s[j] {
      assert s[i] in multiset(all);
      var k :| 0 <= k < |all| && all[k] == s[i];
      OnceOnly(all, k);
      if s[i] == s[j] { Twice(s, i, j); }
    }
  }

  /** Dropping an element before the last one leaves the last one last. */
  lemma WithoutLast<T>(s: seq<T>, k: nat)
    requires k < |s| - 1
    ensures var n := |s| - 1; var rest := s[..k] + s[k + 1..];
            && rest != [] && rest[|rest| - 1] == s[n]
            && rest[..|rest| - 1] == s[..n][..k] + s[..n][k + 1..]
            && s[..n][k] == s[k]
  {
  }

  lemma SubsetSize<T>(a: set<T>, b: set<T>)
    requires a <= b
    ensures |a| <= |b|
  {
    assert b == a + (b - a);
  }

  // ----- Ranks -----

  function CountBelow(s: seq<int>, x: int): nat {
    if s == [] then 0 else (if s[0] < x then 1 else 0) + CountBelow(s[1..], x)
  }

  function CountUpTo(s: seq<int>, x: int): nat {
    if s == [] then 0 else (if s[0] <= x then 1 else 0) + CountUpTo(s[1..], x)
  }

  /** `x` has rank `r` in `s`: at most `r` elements are smaller and more than `r` are not larger. */
  predicate HasRank(s: seq<int>, r: nat, x: int) {
    CountBelow(s, x) <= r < CountUpTo(s, x)
  }

  lemma FindHead<T>(a: seq<T>, b: seq<T>) returns (k: nat)
    requires a != [] && multiset(a) == multiset(b)
    ensures k < |b| && b[k] == a[0] && multiset(a[1..]) == multiset(b[..k] + b[k + 1..])
  {
    assert a[0] in multiset(b);
    k :| 0 <= k < |b| && b[k] == a[0];
    MultisetWithout(a, 0);
    MultisetWithout(b, k);
    assert a[..0] + a[1..] == a[1..];
  }

  lemma {:induction false} CountsOfMultiset(a: seq<int>, b: seq<int>, x: int)
    requires multiset(a) == multiset(b)
    ensures CountBelow(a, x) == CountBelow(b, x) && CountUpTo(a, x) == CountUpTo(b, x)
  {
    if a == [] {
      assert |b| == |multiset(b)| == 0;
    } else {
      var k := FindHead(a, b);
      CountsOfMultiset(a[1..], b[..k] + b[k + 1..], x);
      CountsWithout(b, k, x);
    }
  }

  lemma {:induction false} CountsAppend(a: seq<int>, b: seq<int>, x: int)
    ensures CountBelow(a + b, x) == CountBelow(a, x) + CountBelow(b, x)
    ensures CountUpTo(a + b, x) == CountUpTo(a, x) + CountUpTo(b, x)
  {
    if a == [] {
      assert a + b == b;
    } else {
      assert (a + b)[1..] == a[1..] + b;
      CountsAppend(a[1..], b, x);
    }
  }

  lemma CountsWithout(s: seq<int>, k: nat, x: int)
    requires k < |s|
    ensures var s' := s[..k] + s[k + 1..];
            && CountBelow(s, x) == CountBelow(s', x) + (if s[k] < x then 1 else 0)
            && CountUpTo(s, x) == CountUpTo(s', x) + (if s[k] <= x then 1 else 0)
  {
    CountsAppend(s[..k], s[k + 1..], x);
    CountsAppend(s[..k], s[k..], x);
    assert s == s[..k] + s[k..] && s[k..][1..] == s[k + 1..];
  }

  lemma {:induction false} CountBounds(s: seq<int>, x: int)
    ensures CountBelow(s, x) <= |s| && CountUpTo(s, x) <= |s|
    ensures (forall i :: 0 <= i < |s| ==> s[i] <= x) ==> CountUpTo(s, x) == |s|
    ensures (forall i :: 0 <= i < |s| ==> x <= s[i]) ==> CountBelow(s, x) == 0
  {
    if s != [] { CountBounds(s[1..], x); }
  }

  lemma RankInSorted(t: seq<int>, r: nat)
    requires Ascending(t) && r < |t|
    ensures HasRank(t, r, t[r])
  {
    hide CountBelow, CountUpTo;
    var x := t[r];
    SplitCounts(t, r, x);
    AllAbove(t[r..], x);
    SplitCounts(t, r + 1, x);
    AllUpTo(t[..r + 1], x);
  }

  /** The counts of a sequence cut in two, and that neither exceeds a part's length. */
  lemma SplitCounts(t: seq<int>, r: nat, x: int)
    requires r <= |t|
    ensures CountBelow(t, x) == CountBelow(t[..r], x) + CountBelow(t[r..], x) && CountBelow(t[..r], x) <= r
    ensures CountUpTo(t, x) == CountUpTo(t[..r], x) + CountUpTo(t[r..], x)
  {
    hide CountBelow, CountUpTo;
    assert t == t[..r] + t[r..];
    CountsAppend(t[..r], t[r..], x);
    CountBounds(t[..r], x);
  }

  lemma AllAbove(s: seq<int>, x: int)
    requires forall i :: 0 <= i < |s| ==> x <= s[i]
    ensures CountBelow(s, x) == 0
  {
    hide CountBelow, CountUpTo;
    CountBounds(s, x);
  }

  lemma AllUpTo(s: seq<int>, x: int)
    requires forall i :: 0 <= i < |s| ==> s[i] <= x
    ensures CountUpTo(s, x) == |s|
  {
    hide CountBelow, CountUpTo;
    CountBounds(s, x);
  }

  /** The element at index `r` of the sorted arrangement is the element of rank `r`. */
  lemma SortedIndexHasRank(s: seq<int>, r: nat)
    requires r < |s|
    ensures HasRank(s, r, SortInts(s)[r])
  {
    RankInSorted(SortInts(s), r);
    CountsOfMultiset(s, SortInts(s), SortInts(s)[r]);
  }

  /** Only one value has a given rank. */
  lemma RankUnique(s: seq<int>, r: nat, x: int, y: int)
    requires HasRank(s, r, x) && HasRank(s, r, y)
    ensures x == y
  {
    if x < y { UpToBelow(s, x, y); }
    if y < x { UpToBelow(s, y, x); }
  }

  lemma {:induction false} UpToBelow(s: seq<int>, x: int, y: int)
    requires x < y
    ensures CountUpTo(s, x) <= CountBelow(s, y)
  {
    if s != [] { UpToBelow(s[1..], x, y); }
  }

  /** A sorted arrangement is determined by its elements. */
  lemma SortedUnique(a: seq<int>, b: seq<int>)
    requires Ascending(a) && Ascending(b) && multiset(a) == multiset(b)
    ensures a == b
  {
    assert |a| == |multiset(a)| == |multiset(b)| == |b|;
    forall r | 0 <= r < |a| ensures a[r] == b[r] {
      RankInSorted(a, r);
      RankInSorted(b, r);
      CountsOfMultiset(a, b, b[r]);
      RankUnique(a, r, a[r], b[r]);
    }
  }

  lemma SortPermutation(a: seq<int>, b: seq<int>)
    requires multiset(a) == multiset(b)
    ensures SortInts(a) == SortInts(b)
  {
    SortedUnique(SortInts(a), SortInts(b));
  }

  // ----- Stable sorting -----

  /** Insert `x`, which precedes all of `s` in the input, before the first element not smaller. */
  function InsertStable<T>(less: (T, T) -> bool, x: T, s: seq<T>): (r: seq<T>)
    ensures |r| == |s| + 1
  {
    if s == [] then [x]
    else if less(s[0], x) then [s[0]] + InsertStable(less, x, s[1..])
    else [x] + s
  }

  function StableSort<T>(less: (T, T) -> bool, s: seq<T>): (r: seq<T>)
    ensures |r| == |s|
  {
    if s == [] then [] else InsertStable(less, s[0], StableSort(less, s[1..]))
  }

  /** No later element is smaller than an earlier one. */
  ghost predicate Ordered<T(!new)>(less: (T, T) -> bool, s: seq<T>) {
    forall i, j :: 0 <= i < j < |s| ==> !less(s[j], s[i])
  }

  /** Strict weak order, as the sorting routine expects of its comparison. */
  ghost predicate WeakOrder<T(!new)>(less: (T, T) -> bool) {
    && (forall x, y :: less(x, y) ==> !less(y, x))
    && (forall x, y, z :: !less(x, y) && !less(y, z) ==> !less(x, z))
  }

  lemma {:induction false} InsertMembers<T>(less: (T, T) -> bool, x: T, s: seq<T>)
    ensures multiset(InsertStable(less, x, s)) == multiset{x} + multiset(s)
  {
    if s != [] {
      assert s == [s[0]] + s[1..];
      InsertMembers(less, x, s[1..]);
    }
  }

  lemma {:induction false} StableSortMembers<T>(less: (T, T) -> bool, s: seq<T>)
    ensures multiset(StableSort(less, s)) == multiset(s)
  {
    if s != [] {
      assert s == [s[0]] + s[1..];
      StableSortMembers(less, s[1..]);
      InsertMembers(less, s[0], StableSort(less, s[1..]));
    }
  }

  lemma {:induction false} InsertOrdered<T(!new)>(less: (T, T) -> bool, x: T, s: seq<T>)
    requires WeakOrder(less) && Ordered(less, s)
    ensures Ordered(less, InsertStable(less, x, s))
  {
    if s != [] && less(s[0], x) {
      var rest := InsertStable(less, x, s[1..]);
      InsertOrdered(less, x, s[1..]);
      InsertMembers(less, x, s[1..]);
      forall k | 0 <= k < |rest| ensures !less(rest[k], s[0]) {
        assert rest[k] in multiset(rest);
        assert rest[k] == x || rest[k] in s[1..];
      }
    }
  }

  lemma {:induction false} StableSortOrdered<T(!new)>(less: (T, T) -> bool, s: seq<T>)
    requires WeakOrder(less)
    ensures Ordered(less, StableSort(less, s))
  {
    if s != [] {
      StableSortOrdered(less, s[1..]);
      InsertOrdered(less, s[0], StableSort(less, s[1..]));
    }
  }

  /** The elements that compare equal to `x`, in order. */
  function Ties<T>(less: (T, T) -> bool, x: T, s: seq<T>): seq<T> {
    if s == [] then []
    else (if !less(s[0], x) && !less(x, s[0]) then [s[0]] else []) + Ties(less, x, s[1..])
  }

  lemma ConsTies<T>(less: (T, T) -> bool, y: T, x: T, s: seq<T>)
    ensures Ties(less, y, [x] + s) == if !less(x, y) && !less(y, x) then [x] + Ties(less, y, s) else Ties(less, y, s)
  {
    assert ([x] + s)[1..] == s;
  }

  lemma {:induction false} InsertTies<T(!new)>(less: (T, T) -> bool, y: T, x: T, s: seq<T>)
    requires WeakOrder(less)
    ensures Ties(less, y, InsertStable(less, x, s)) == Ties(less, y, [x] + s)
  {
    if s != [] && less(s[0], x) {
      hide Ties;
      var rest := s[1..];
      assert s == [s[0]] + rest;
      InsertTies(less, y, x, rest);
      ConsTies(less, y, s[0], InsertStable(less, x, rest));
      ConsTies(less, y, s[0], rest);
      ConsTies(less, y, x, rest);
      ConsTies(less, y, x, s);
    }
  }

  /** Elements that compare equal keep their input order. */
  lemma {:induction false} StableSortKeepsTies<T(!new)>(less: (T, T) -> bool, y: T, s: seq<T>)
    requires WeakOrder(less)
    ensures Ties(less, y, StableSort(less, s)) == Ties(less, y, s)
  {
    if s != [] {
      var r := StableSort(less, s[1..]);
      StableSortKeepsTies(less, y, s[1..]);
      InsertTies(less, y, s[0], r);
      ConsTies(less, y, s[0], r);
      ConsTies(less, y, s[0], s[1..]);
      assert s == [s[0]] + s[1..];
    }
  }

  // ----- Places in a stable sort -----

  function Count<T>(p: T -> bool, s: seq<T>): nat {
    if s == [] then 0 else (if p(s[0]) then 1 else 0) + Count(p, s[1..])
  }

  lemma {:induction false} CountSnoc<T>(p: T -> bool, s: seq<T>, x: T)
    ensures Count(p, s + [x]) == Count(p, s) + (if p(x) then 1 else 0)
  {
    if s == [] {
      assert s + [x] == [x];
    } else {
      assert (s + [x])[1..] == s[1..] + [x];
      CountSnoc(p, s[1..], x);
    }
  }

  /** The count is the number of positions that hold such an element. */
  lemma {:induction false} CountIs<T>(p: T -> bool, s: seq<T>) returns (at: set<int>)
    ensures Count(p, s) == |at| && forall i :: i in at <==> 0 <= i < |s| && p(s[i])
  {
    at := {};
    if s != [] {
      var n := |s| - 1;
      var t := s[..n];
      at := CountIs(p, t);
      CountSnoc(p, t, s[n]);
      assert s == t + [s[n]];
      if p(s[n]) { at := at + {n}; }
    }
  }

  lemma {:induction false} CountInserted<T>(p: T -> bool, less: (T, T) -> bool, x: T, s: seq<T>)
    ensures Count(p, InsertStable(less, x, s)) == Count(p, s) + (if p(x) then 1 else 0)
  {
    if s == [] {
    } else if less(s[0], x) {
      CountInserted(p, less, x, s[1..]);
      assert ([s[0]] + InsertStable(less, x, s[1..]))[1..] == InsertStable(less, x, s[1..]);
    } else {
      assert ([x] + s)[1..] == s;
    }
  }

  lemma {:induction false} CountSorted<T>(p: T -> bool, less: (T, T) -> bool, s: seq<T>)
    ensures Count(p, StableSort(less, s)) == Count(p, s)
  {
    if s != [] {
      CountSorted(p, less, s[1..]);
      CountInserted(p, less, s[0], StableSort(less, s[1..]));
    }
  }

  lemma {:induction false} CountNone<T>(p: T -> bool, s: seq<T>)
    requires forall i :: 0 <= i < |s| ==> !p(s[i])
    ensures Count(p, s) == 0
  {
    if s != [] { CountNone(p, s[1..]); }
  }

  /** Is smaller than `x`. */
  function Below<T>(less: (T, T) -> bool, x: T): T -> bool { y => less(y, x) }

  /** Is something `x` is not smaller than. */
  function UpTo<T>(less: (T, T) -> bool, x: T): T -> bool { y => !less(x, y) }

  /** The element inserted comes after exactly the smaller ones. */
  lemma {:induction false} InsertPlace<T(!new)>(less: (T, T) -> bool, x: T, s: seq<T>)
    requires WeakOrder(less) && Ordered(less, s)
    ensures var place := Count(Below(less, x), s);
            place < |InsertStable(less, x, s)| && InsertStable(less, x, s)[place] == x
  {
    if s != [] {
      if less(s[0], x) {
        InsertPlace(less, x, s[1..]);
      } else {
        CountNone(Below(less, x), s);
      }
    }
  }

  /** An insertion moves exactly the elements that are not smaller. */
  lemma {:induction false} InsertMoves<T(!new)>(less: (T, T) -> bool, y: T, s: seq<T>, q: nat)
    requires WeakOrder(less) && Ordered(less, s) && q < |s|
    ensures InsertStable(less, y, s)[if less(s[q], y) then q else q + 1] == s[q]
  {
    if less(s[0], y) {
      if q > 0 { InsertMoves(less, y, s[1..], q - 1); }
    } else if q > 0 {
      assert !less(s[q], s[0]);
    }
  }

  /** In the sorted arrangement an element comes after exactly those before it that it is not
      smaller than, and those behind it that are smaller than it. */
  lemma {:induction false} PlaceInSort<T(!new)>(less: (T, T) -> bool, a: seq<T>, x: T, b: seq<T>)
    requires WeakOrder(less)
    ensures var place := Count(UpTo(less, x), a) + Count(Below(less, x), b);
            place <= |a| + |b| && StableSort(less, a + [x] + b)[place] == x
  {
    var s := a + [x] + b;
    StableSortOrdered(less, s[1..]);
    if a == [] {
      assert s[1..] == b;
      CountSorted(Below(less, x), less, b);
      InsertPlace(less, x, StableSort(less, b));
    } else {
      assert s[1..] == a[1..] + [x] + b;
      PlaceInSort(less, a[1..], x, b);
      InsertMoves(less, a[0], StableSort(less, s[1..]), Count(UpTo(less, x), a[1..]) + Count(Below(less, x), b));
    }
  }
}
