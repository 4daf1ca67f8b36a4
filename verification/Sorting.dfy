// Stable sorting by a key, filtering, and the greedy pass that keeps an item
// unless it clashes with one already kept.
module Sorting {
  import opened Outcomes

  // Any two items compare, consistently; equal keys may tie.
  ghost predicate IsRanking<T(!new)>(le: (T, T) -> bool) {
    && (forall a, b :: le(a, b) || le(b, a))
    && (forall a, b, c :: le(a, b) && le(b, c) ==> le(a, c))
  }

  // Only equal items tie.
  ghost predicate IsTotalOrder<T(!new)>(le: (T, T) -> bool) {
    && IsRanking(le)
    && (forall a, b :: le(a, b) && le(b, a) ==> a == b)
  }

  ghost predicate Ordered<T(!new)>(le: (T, T) -> bool, s: seq<T>) {
    forall i, j | 0 <= i < j < |s| :: le(s[i], s[j])
  }

  function Insert<T(!new)>(le: (T, T) -> bool, x: T, s: seq<T>): (r: seq<T>)
    requires IsRanking(le) && Ordered(le, s)
    ensures multiset(r) == multiset(s) + multiset{x}
    ensures Ordered(le, r)
  {
    if s == [] then [x]
    else if le(x, s[0]) then [x] + s
    else
      var rest := Insert(le, x, s[1..]);
      assert s == [s[0]] + s[1..];
      PrependKeepsOrder(le, s[0], x, s[1..], rest);
      [s[0]] + rest
  }

  lemma PrependKeepsOrder<T(!new)>(le: (T, T) -> bool, head: T, x: T, tail: seq<T>, rest: seq<T>)
    requires multiset(rest) == multiset(tail) + multiset{x} && Ordered(le, rest)
    requires le(head, x) && forall y | y in tail :: le(head, y)
    ensures Ordered(le, [head] + rest)
  {
    forall y | y in rest
      ensures le(head, y)
    {
      assert y in multiset(rest);
    }
  }

  // The items in order, ties left in the order they came.
  function SortBy<T(!new)>(le: (T, T) -> bool, s: seq<T>): (r: seq<T>)
    requires IsRanking(le)
    ensures Ordered(le, r) && multiset(r) == multiset(s) && |r| == |s|
  {
    if s == [] then []
    else
      assert s == [s[0]] + s[1..];
      var r := Insert(le, s[0], SortBy(le, s[1..]));
      assert |multiset(r)| == |multiset(s)|;
      r
  }

  lemma SameElements<T(!new)>(s: seq<T>, t: seq<T>)
    requires multiset(s) == multiset(t)
    ensures |s| == |t| && forall x :: x in s <==> x in t
  {
    assert |multiset(s)| == |multiset(t)|;
    assert forall x :: x in s <==> x in multiset(s);
  }

  lemma TailMultiset<T(!new)>(s: seq<T>)
    requires s != []
    ensures multiset(s[1..]) == multiset(s) - multiset{s[0]}
  {
    assert s == [s[0]] + s[1..];
  }

  // There is only one ordered arrangement of given items.
  lemma {:induction false} OrderedIsUnique<T(!new)>(le: (T, T) -> bool, s: seq<T>, t: seq<T>)
    requires IsTotalOrder(le) && Ordered(le, s) && Ordered(le, t) && multiset(s) == multiset(t)
    ensures s == t
  {
    SameElements(s, t);
    if s != [] {
      assert s[0] in t && t[0] in s;
      assert le(s[0], t[0]) && le(t[0], s[0]);
      TailMultiset(s);
      TailMultiset(t);
      OrderedIsUnique(le, s[1..], t[1..]);
      HeadAndTail(s);
      HeadAndTail(t);
    }
  }

  // Filtering.
  function Filter<T(!new)>(p: T -> bool, s: seq<T>): (r: seq<T>)
    ensures forall x :: x in r <==> x in s && p(x)
    ensures |r| <= |s|
  {
    if s == [] then []
    else
      assert s == [s[0]] + s[1..];
      if p(s[0]) then [s[0]] + Filter(p, s[1..]) else Filter(p, s[1..])
  }

  lemma {:induction false} FilterCounts<T(!new)>(p: T -> bool, s: seq<T>, x: T)
    ensures multiset(Filter(p, s))[x] == if p(x) then multiset(s)[x] else 0
  {
    if s != [] {
      assert s == [s[0]] + s[1..];
      FilterCounts(p, s[1..], x);
    }
  }

  lemma {:induction false} FilterOfSplit<T(!new)>(p: T -> bool, yes: seq<T>, no: seq<T>)
    requires forall x | x in yes :: p(x)
    requires forall x | x in no :: !p(x)
    ensures Filter(p, yes + no) == yes
  {
    if yes != [] {
      FilterOfSplit(p, yes[1..], no);
      assert (yes + no)[1..] == yes[1..] + no;
    } else if no != [] {
      FilterOfSplit(p, yes, no[1..]);
      assert (yes + no)[1..] == yes + no[1..];
    }
  }

  lemma {:induction false} FilterAppends<T(!new)>(p: T -> bool, s: seq<T>, x: T)
    ensures Filter(p, s + [x]) == Filter(p, s) + if p(x) then [x] else []
  {
    if s != [] {
      assert (s + [x])[1..] == s[1..] + [x];
      FilterAppends(p, s[1..], x);
    }
  }

  lemma {:induction false} FilterPrefix<T(!new)>(p: T -> bool, s: seq<T>, n: nat)
    requires n <= |s|
    ensures Filter(p, s[..n]) <= Filter(p, s)
    decreases |s| - n
  {
    if n == |s| {
      assert s[..n] == s;
    } else {
      assert s[..n + 1] == s[..n] + [s[n]];
      FilterAppends(p, s[..n], s[n]);
      FilterPrefix(p, s, n + 1);
    }
  }

  lemma {:induction false} FilterKeepsOrder<T(!new)>(le: (T, T) -> bool, p: T -> bool, s: seq<T>)
    requires Ordered(le, s)
    ensures Ordered(le, Filter(p, s))
  {
    if s != [] {
      FilterKeepsOrder(le, p, s[1..]);
      assert forall x | x in s[1..] :: le(s[0], x);
    }
  }

  // Sorting some of the items is taking them from all the items sorted.
  lemma SortThenFilter<T(!new)>(le: (T, T) -> bool, p: T -> bool, s: seq<T>)
    requires IsTotalOrder(le)
    ensures SortBy(le, Filter(p, s)) == Filter(p, SortBy(le, s))
  {
    var a, b := SortBy(le, Filter(p, s)), Filter(p, SortBy(le, s));
    forall x
      ensures multiset(a)[x] == multiset(b)[x]
    {
      FilterCounts(p, s, x);
      FilterCounts(p, SortBy(le, s), x);
    }
    FilterKeepsOrder(le, p, SortBy(le, s));
    OrderedIsUnique(le, a, b);
  }

  // ---- Items told apart by a key ----

  ghost predicate DistinctBy<T(!new), K>(key: T -> K, s: seq<T>) {
    forall i, j | 0 <= i < j < |s| :: key(s[i]) != key(s[j])
  }

  lemma RepeatCounts<T(!new)>(s: seq<T>, i: nat, j: nat)
    requires i < j < |s| && s[i] == s[j]
    ensures multiset(s)[s[i]] >= 2
  {
    assert s == s[..j] + ([s[j]] + s[j + 1..]);
    assert s[i] in s[..j] && s[i] in multiset(s[..j]);
  }

  lemma HeadIsUnique<T(!new), K>(key: T -> K, s: seq<T>)
    requires s != [] && DistinctBy(key, s)
    ensures forall x | x in s[1..] :: key(x) != key(s[0])
  {
    assert forall j | 0 <= j < |s| - 1 :: s[1..][j] == s[j + 1];
  }

  lemma {:induction false} DistinctCounts<T(!new), K>(key: T -> K, s: seq<T>, x: T)
    requires DistinctBy(key, s)
    ensures multiset(s)[x] <= 1
  {
    if s != [] {
      assert s == [s[0]] + s[1..];
      DistinctCounts(key, s[1..], x);
      HeadIsUnique(key, s);
    }
  }

  lemma {:induction false} DistinctSize<T(!new), K>(key: T -> K, s: seq<T>)
    requires DistinctBy(key, s)
    ensures |set x | x in s| == |s|
  {
    if s != [] {
      HeadIsUnique(key, s);
      DistinctSize(key, s[1..]);
      assert s == [s[0]] + s[1..];
      assert (set x | x in s) == (set x | x in s[1..]) + {s[0]};
    }
  }

  lemma SameHead<T(!new), K>(le: (T, T) -> bool, key: T -> K, s: seq<T>, t: seq<T>)
    requires IsRanking(le) && Ordered(le, s) && Ordered(le, t) && multiset(s) == multiset(t) && s != [] && t != []
    requires DistinctBy(key, s) && forall a, b :: le(a, b) && le(b, a) ==> key(a) == key(b)
    ensures s[0] == t[0]
  {
    SameElements(s, t);
    assert s[0] in t && t[0] in s;
    assert le(s[0], t[0]) && le(t[0], s[0]);
    HeadIsUnique(key, s);
    HeadAndTail(s);
  }

  // When only items of one key tie, and keys do not repeat, there is only one
  // ordered arrangement.
  lemma {:induction false} OrderedIsUniqueByKey<T(!new), K>(le: (T, T) -> bool, key: T -> K, s: seq<T>, t: seq<T>)
    requires IsRanking(le) && Ordered(le, s) && Ordered(le, t) && multiset(s) == multiset(t)
    requires DistinctBy(key, s) && forall a, b :: le(a, b) && le(b, a) ==> key(a) == key(b)
    ensures s == t
  {
    SameElements(s, t);
    if s != [] {
      SameHead(le, key, s, t);
      TailMultiset(s);
      TailMultiset(t);
      OrderedIsUniqueByKey(le, key, s[1..], t[1..]);
      HeadAndTail(s);
      HeadAndTail(t);
    }
  }

  lemma JoinKeepsDistinct<T(!new), K>(key: T -> K, a: seq<T>, b: seq<T>)
    requires DistinctBy(key, a) && DistinctBy(key, b) && forall x, y | x in a && y in b :: key(x) != key(y)
    ensures DistinctBy(key, a + b)
  {
    forall i, j | 0 <= i < j < |a + b|
      ensures key((a + b)[i]) != key((a + b)[j])
    {
      if j < |a| {
        assert key(a[i]) != key(a[j]);
      } else if i >= |a| {
        assert key(b[i - |a|]) != key(b[j - |a|]);
      } else {
        assert a[i] in a && b[j - |a|] in b;
      }
    }
  }

  // Rearranging items keeps their keys distinct.
  lemma PermutationKeepsDistinct<T(!new), K>(key: T -> K, s: seq<T>, t: seq<T>)
    requires multiset(s) == multiset(t) && DistinctBy(key, s)
    ensures DistinctBy(key, t)
  {
    SameElements(s, t);
    forall i, j | 0 <= i < j < |t|
      ensures key(t[i]) != key(t[j])
    {
      assert t[i] in s && t[j] in s;
      var a :| 0 <= a < |s| && s[a] == t[i];
      var b :| 0 <= b < |s| && s[b] == t[j];
      if a == b {
        RepeatCounts(t, i, j);
        DistinctCounts(key, s, t[i]);
      }
    }
  }

  lemma {:induction false} FilterKeepsDistinct<T(!new), K>(key: T -> K, p: T -> bool, s: seq<T>)
    requires DistinctBy(key, s)
    ensures DistinctBy(key, Filter(p, s))
  {
    if s != [] {
      FilterKeepsDistinct(key, p, s[1..]);
      HeadIsUnique(key, s);
    }
  }

  lemma {:induction false} FilterSplits<T(!new)>(p: T -> bool, q: T -> bool, s: seq<T>)
    requires forall x | x in s :: p(x) <==> !q(x)
    ensures |Filter(p, s)| + |Filter(q, s)| == |s|
  {
    if s != [] {
      assert forall x | x in s[1..] :: x in s;
      FilterSplits(p, q, s[1..]);
    }
  }

  // Filtering by membership in some of the items keeps exactly that many.
  lemma ChosenAreKept<T(!new), K>(key: T -> K, p: T -> bool, s: seq<T>, chosen: seq<T>)
    requires DistinctBy(key, s) && DistinctBy(key, chosen) && forall x | x in chosen :: x in s
    requires forall x | x in s :: p(x) <==> x in chosen
    ensures |Filter(p, s)| == |chosen|
  {
    var kept := Filter(p, s);
    forall x
      ensures multiset(kept)[x] == multiset(chosen)[x]
    {
      FilterCounts(p, s, x);
      DistinctCounts(key, s, x);
      DistinctCounts(key, chosen, x);
      assert x in chosen <==> x in multiset(chosen);
      assert x in s <==> x in multiset(s);
    }
    assert multiset(kept) == multiset(chosen);
    SameElements(kept, chosen);
  }

  // ---- The greedy pass ----

  ghost predicate Accepts<T(!new)>(clash: (T, T) -> bool, kept: seq<T>, x: T) {
    forall k | k in kept :: !clash(x, k)
  }

  // What the loop keeps of an ordered list.
  ghost function Keep<T(!new)>(clash: (T, T) -> bool, items: seq<T>): seq<T> {
    if items == [] then []
    else
      var n := |items| - 1;
      var kept := Keep(clash, items[..n]);
      if Accepts(clash, kept, items[n]) then kept + [items[n]] else kept
  }

  ghost predicate Separated<T(!new)>(clash: (T, T) -> bool, kept: seq<T>) {
    forall i, j | 0 <= i < j < |kept| :: !clash(kept[j], kept[i])
  }

  // An item not kept clashes with a kept one that comes no later in the order.
  ghost predicate Covered<T(!new)>(le: (T, T) -> bool, clash: (T, T) -> bool, kept: seq<T>, x: T) {
    x in kept || exists k :: k in kept && le(k, x) && clash(x, k)
  }

  lemma {:induction false} KeepIsSubset<T(!new)>(clash: (T, T) -> bool, items: seq<T>)
    ensures multiset(Keep(clash, items)) <= multiset(items)
    ensures forall x | x in Keep(clash, items) :: x in items
  {
    if items != [] {
      var n := |items| - 1;
      KeepIsSubset(clash, items[..n]);
      assert items == items[..n] + [items[n]];
    }
  }

  lemma {:induction false} KeepIsOrdered<T(!new)>(le: (T, T) -> bool, clash: (T, T) -> bool, items: seq<T>)
    requires Ordered(le, items)
    ensures Ordered(le, Keep(clash, items))
  {
    if items != [] {
      var n := |items| - 1;
      KeepIsOrdered(le, clash, items[..n]);
      KeepIsSubset(clash, items[..n]);
      assert forall x | x in items[..n] :: le(x, items[n]);
    }
  }

  lemma {:induction false} KeepIsSeparated<T(!new)>(clash: (T, T) -> bool, items: seq<T>)
    ensures Separated(clash, Keep(clash, items))
  {
    if items != [] {
      KeepIsSeparated(clash, items[..|items| - 1]);
    }
  }

  lemma KeepIsOrderedSubset<T(!new)>(le: (T, T) -> bool, clash: (T, T) -> bool, items: seq<T>)
    requires Ordered(le, items)
    ensures Ordered(le, Keep(clash, items)) && Separated(clash, Keep(clash, items))
    ensures multiset(Keep(clash, items)) <= multiset(items)
    ensures forall x | x in Keep(clash, items) :: x in items
  {
    KeepIsOrdered(le, clash, items);
    KeepIsSeparated(clash, items);
    KeepIsSubset(clash, items);
  }

  lemma {:induction false} KeepCovers<T(!new)>(le: (T, T) -> bool, clash: (T, T) -> bool, items: seq<T>, x: T)
    requires Ordered(le, items) && x in items
    ensures Covered(le, clash, Keep(clash, items), x)
  {
    var n := |items| - 1;
    assert items == items[..n] + [items[n]];
    KeepIsOrderedSubset(le, clash, items[..n]);
    if x in items[..n] {
      KeepCovers(le, clash, items[..n], x);
    } else {
      assert forall y | y in items[..n] :: le(y, items[n]);
    }
  }

  lemma {:induction false} SeparatedIsKept<T(!new)>(clash: (T, T) -> bool, kept: seq<T>)
    requires Separated(clash, kept)
    ensures Keep(clash, kept) == kept
  {
    if kept != [] {
      SeparatedIsKept(clash, kept[..|kept| - 1]);
    }
  }

  // What is kept of a longer list extends what is kept of a prefix.
  lemma {:induction false} KeepExtends<T(!new)>(clash: (T, T) -> bool, front: seq<T>, back: seq<T>)
    returns (extra: seq<T>)
    ensures Keep(clash, front + back) == Keep(clash, front) + extra
    ensures forall x | x in extra :: x in back
  {
    if back == [] {
      extra := [];
      assert front + back == front;
    } else {
      var n := |back| - 1;
      extra := KeepExtends(clash, front, back[..n]);
      assert (front + back)[..|front + back| - 1] == front + back[..n];
      if Accepts(clash, Keep(clash, front + back[..n]), back[n]) {
        extra := extra + [back[n]];
      }
    }
  }
}
