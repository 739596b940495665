/** The listing's sort: `data.sort((a, b) => ((a[sort] || 0) - (b[sort] || 0)) * dir)`.
    Array.prototype.sort is stable, so its result is the unique stable
    ordering for the comparator; the model computes it by insertion. */
module Sorting {
  import opened Domain

  /** The numeric fields of a summary, and every other field name. A field no
      summary carries gives every key `undefined || 0`, that is 0. The string
      fields name and location, when no value looks like a number, make the
      comparator NaN, which the sort treats as 0. In both cases all summaries
      compare equal, which key 0 captures. */
  datatype SortField = NightsField | SubtotalField | AvgPriceField | UnknownField

  datatype Order = Asc | Desc

  /** Only the exact string "desc" reverses the direction. */
  function ParseOrder(order: string): Order {
    if order == "desc" then Desc else Asc
  }

  /** `x[sort] || 0`: null and absent fields compare as 0. */
  function Key(s: Summary, f: SortField): nat {
    match f
    case NightsField => s.nights.GetOr(0)
    case SubtotalField => s.subtotal.GetOr(0)
    case AvgPriceField => s.avgPricePerNight
    case UnknownField => 0
  }

  /** The comparator is negative for (a, b): a must come before b. */
  predicate Precedes(a: Summary, b: Summary, f: SortField, o: Order) {
    if o == Asc then Key(a, f) < Key(b, f) else Key(a, f) > Key(b, f)
  }

  /** a may stay before b: the comparator does not put b first. */
  predicate InOrder(a: Summary, b: Summary, f: SortField, o: Order) {
    !Precedes(b, a, f, o)
  }

  predicate Sorted(s: seq<Summary>, f: SortField, o: Order) {
    forall i, j :: 0 <= i < j < |s| ==> InOrder(s[i], s[j], f, o)
  }

  /** Inserts x after the last element of s that x does not have to precede. */
  function InsertLast(s: seq<Summary>, x: Summary, f: SortField, o: Order): (r: seq<Summary>)
    ensures |r| == |s| + 1
  {
    if s == [] || !Precedes(x, s[|s| - 1], f, o) then s + [x]
    else InsertLast(s[..|s| - 1], x, f, o) + [s[|s| - 1]]
  }

  /** The stable sort of s for the comparator. */
  function StableSort(s: seq<Summary>, f: SortField, o: Order): (r: seq<Summary>)
    ensures |r| == |s|
  {
    if s == [] then [] else InsertLast(StableSort(s[..|s| - 1], f, o), s[|s| - 1], f, o)
  }

  /** The summaries of s whose key is k, in their order in s. */
  function WithKey(s: seq<Summary>, f: SortField, k: nat): seq<Summary> {
    if s == [] then []
    else WithKey(s[..|s| - 1], f, k) + (if Key(s[|s| - 1], f) == k then [s[|s| - 1]] else [])
  }

  lemma WithKeySnoc(s: seq<Summary>, x: Summary, f: SortField, k: nat)
    ensures WithKey(s + [x], f, k) == WithKey(s, f, k) + (if Key(x, f) == k then [x] else [])
  {
    assert (s + [x])[..|s|] == s;
  }

  lemma {:induction false} InsertLastPermutes(s: seq<Summary>, x: Summary, f: SortField, o: Order)
    ensures multiset(InsertLast(s, x, f, o)) == multiset(s) + multiset{x}
  {
    if s != [] && Precedes(x, s[|s| - 1], f, o) {
      var init, last := s[..|s| - 1], s[|s| - 1];
      assert s == init + [last];
      InsertLastPermutes(init, x, f, o);
    }
  }

  lemma {:induction false} InsertLastMembers(s: seq<Summary>, x: Summary, f: SortField, o: Order)
    ensures forall y :: y in InsertLast(s, x, f, o) ==> y in s || y == x
  {
    if s != [] && Precedes(x, s[|s| - 1], f, o) {
      InsertLastMembers(s[..|s| - 1], x, f, o);
    }
  }

  lemma SortedSnoc(r: seq<Summary>, y: Summary, f: SortField, o: Order)
    requires Sorted(r, f, o)
    requires forall i :: 0 <= i < |r| ==> InOrder(r[i], y, f, o)
    ensures Sorted(r + [y], f, o)
  {
  }

  lemma {:induction false} InsertLastSorted(s: seq<Summary>, x: Summary, f: SortField, o: Order)
    requires Sorted(s, f, o)
    ensures Sorted(InsertLast(s, x, f, o), f, o)
  {
    if s != [] && Precedes(x, s[|s| - 1], f, o) {
      var init, last := s[..|s| - 1], s[|s| - 1];
      assert Sorted(init, f, o);
      InsertLastSorted(init, x, f, o);
      InsertLastMembers(init, x, f, o);
      var r := InsertLast(init, x, f, o);
      forall i | 0 <= i < |r| ensures InOrder(r[i], last, f, o) {
        assert r[i] in r;
        if r[i] != x {
          var k :| 0 <= k < |init| && init[k] == r[i];
          assert s[k] == r[i];
        }
      }
      SortedSnoc(r, last, f, o);
    }
  }

  lemma {:induction false} InsertLastStable(s: seq<Summary>, x: Summary, f: SortField, o: Order, k: nat)
    ensures WithKey(InsertLast(s, x, f, o), f, k) == WithKey(s, f, k) + (if Key(x, f) == k then [x] else [])
  {
    if s == [] || !Precedes(x, s[|s| - 1], f, o) {
      WithKeySnoc(s, x, f, k);
    } else {
      var init, last := s[..|s| - 1], s[|s| - 1];
      assert s == init + [last];
      var r := InsertLast(init, x, f, o);
      assert InsertLast(s, x, f, o) == r + [last];
      InsertLastStable(init, x, f, o, k);
      PassOver(r, init, last, x, f, o, k);
    }
  }

  /** x moving before last keeps the order of key k: x goes before last only
      when its key is strictly on the near side, so at most one of the two has key k. */
  lemma PassOver(r: seq<Summary>, init: seq<Summary>, last: Summary, x: Summary, f: SortField, o: Order, k: nat)
    requires Precedes(x, last, f, o)
    requires WithKey(r, f, k) == WithKey(init, f, k) + (if Key(x, f) == k then [x] else [])
    ensures WithKey(r + [last], f, k) == WithKey(init + [last], f, k) + (if Key(x, f) == k then [x] else [])
  {
    WithKeySnoc(r, last, f, k);
    WithKeySnoc(init, last, f, k);
    if Key(x, f) == k {
      assert Key(last, f) != k;
    }
  }

  /** The sort is a permutation, puts keys in the requested direction, and
      keeps summaries with equal keys in their prior relative order. */
  lemma {:induction false} StableSortCorrect(s: seq<Summary>, f: SortField, o: Order)
    ensures multiset(StableSort(s, f, o)) == multiset(s)
    ensures Sorted(StableSort(s, f, o), f, o)
    ensures o == Asc ==> forall i, j :: 0 <= i < j < |StableSort(s, f, o)| ==>
      Key(StableSort(s, f, o)[i], f) <= Key(StableSort(s, f, o)[j], f)
    ensures o == Desc ==> forall i, j :: 0 <= i < j < |StableSort(s, f, o)| ==>
      Key(StableSort(s, f, o)[i], f) >= Key(StableSort(s, f, o)[j], f)
    ensures forall k :: WithKey(StableSort(s, f, o), f, k) == WithKey(s, f, k)
  {
    if s != [] {
      var init, last := s[..|s| - 1], s[|s| - 1];
      assert s == init + [last];
      StableSortCorrect(init, f, o);
      InsertLastPermutes(StableSort(init, f, o), last, f, o);
      InsertLastSorted(StableSort(init, f, o), last, f, o);
      forall k ensures WithKey(StableSort(s, f, o), f, k) == WithKey(s, f, k) {
        InsertLastStable(StableSort(init, f, o), last, f, o, k);
        WithKeySnoc(init, last, f, k);
      }
    }
  }

  lemma StableSortMembers(s: seq<Summary>, f: SortField, o: Order)
    ensures forall x :: x in StableSort(s, f, o) <==> x in s
  {
    StableSortCorrect(s, f, o);
    forall x ensures x in StableSort(s, f, o) <==> x in s {
      assert x in StableSort(s, f, o) <==> x in multiset(StableSort(s, f, o));
      assert x in s <==> x in multiset(s);
    }
  }

  lemma StableSortPrefix(s: seq<Summary>, i: nat, f: SortField, o: Order)
    requires i < |s|
    ensures StableSort(s[..i + 1], f, o) == InsertLast(StableSort(s[..i], f, o), s[i], f, o)
  {
    assert s[..i + 1][..i] == s[..i];
  }

  /** Where the insertion loop stops: before the run of elements x must precede. */
  lemma {:induction false} InsertAt(s: seq<Summary>, x: Summary, j: nat, f: SortField, o: Order)
    requires j <= |s|
    requires forall k :: j <= k < |s| ==> Precedes(x, s[k], f, o)
    requires j == 0 || !Precedes(x, s[j - 1], f, o)
    ensures InsertLast(s, x, f, o) == s[..j] + [x] + s[j..]
    decreases |s|
  {
    if j < |s| {
      var init := s[..|s| - 1];
      InsertAt(init, x, j, f, o);
      assert s[..j] == init[..j];
      assert s[j..] == init[j..] + [s[|s| - 1]];
    } else {
      assert s[..j] == s;
    }
  }

  /** One pass of the insertion sort: a[i] moves left past the sorted prefix
      elements it must precede. */
  method InsertNext(a: array<Summary>, i: nat, f: SortField, o: Order)
    requires i < a.Length
    modifies a
    ensures a[..i + 1] == InsertLast(old(a[..i]), old(a[i]), f, o)
    ensures forall k :: i < k < a.Length ==> a[k] == old(a[k])
  {
    ghost var sorted := a[..i];
    var x := a[i];
    var j := i;
    while j > 0 && Precedes(x, a[j - 1], f, o)
      invariant 0 <= j <= i
      invariant forall k :: 0 <= k < j ==> a[k] == sorted[k]
      invariant forall k :: j < k <= i ==> a[k] == sorted[k - 1]
      invariant forall k :: j <= k < i ==> Precedes(x, sorted[k], f, o)
      invariant forall k :: i < k < a.Length ==> a[k] == old(a[k])
    {
      a[j] := a[j - 1];
      j := j - 1;
    }
    a[j] := x;
    InsertAt(sorted, x, j, f, o);
    Shifted(a[..i + 1], sorted, x, j);
  }

  /** The array after the pass: the prefix up to j, then x, then the rest shifted right. */
  lemma Shifted(t: seq<Summary>, sorted: seq<Summary>, x: Summary, j: nat)
    requires j <= |sorted| && |t| == |sorted| + 1
    requires forall k :: 0 <= k < j ==> t[k] == sorted[k]
    requires t[j] == x
    requires forall k :: j < k < |t| ==> t[k] == sorted[k - 1]
    ensures t == sorted[..j] + [x] + sorted[j..]
  {
  }

  /** The in-place sort of the listing's data array. */
  method SortInPlace(a: array<Summary>, f: SortField, o: Order)
    modifies a
    ensures a[..] == StableSort(old(a[..]), f, o)
  {
    ghost var input := a[..];
    for i := 0 to a.Length
      invariant a[..i] == StableSort(input[..i], f, o)
      invariant forall k :: i <= k < a.Length ==> a[k] == input[k]
    {
      InsertNext(a, i, f, o);
      StableSortPrefix(input, i, f, o);
    }
    assert input[..a.Length] == input;
  }
}
