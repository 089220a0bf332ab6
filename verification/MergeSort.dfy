/**
 The merge sort that cJSON_Utils.c runs on a child list by relinking it, and the same sort on
 sequences. Walking the relinked nodes gives the sorted sequence.
 */
module MergeSorts {
  import opened CStrings
  import opened SiblingLists

  // ---------------------------------------------------------------- on sequences

  predicate Precedes<T>(x: T, y: T, key: T -> string, cs: bool) {
    CompareKeys(key(x), key(y), cs) < 0
  }

  /** The test that leaves a list unmodified. */
  predicate Rising<T>(s: seq<T>, key: T -> string, cs: bool) {
    |s| <= 1 || (Precedes(s[0], s[1], key, cs) && Rising(s[1..], key, cs))
  }

  /** Of two nodes that compare equal the one of the second list goes first. */
  function Merge<T>(a: seq<T>, b: seq<T>, key: T -> string, cs: bool): (r: seq<T>)
    ensures |r| == |a| + |b|
  {
    if a == [] then b
    else if b == [] then a
    else if Precedes(a[0], b[0], key, cs) then [a[0]] + Merge(a[1..], b, key, cs)
    else [b[0]] + Merge(a, b[1..], key, cs)
  }

  function Middle(n: nat): nat {
    (n + 1) / 2
  }

  function MergeSort<T>(s: seq<T>, key: T -> string, cs: bool): (r: seq<T>)
    ensures |r| == |s|
    decreases |s|
  {
    if |s| <= 1 || Rising(s, key, cs) then s
    else
      var m := Middle(|s|);
      Merge(MergeSort(s[..m], key, cs), MergeSort(s[m..], key, cs), key, cs)
  }

  ghost predicate Ordered<T>(s: seq<T>, key: T -> string, cs: bool) {
    forall i, j :: 0 <= i < j < |s| ==> CompareKeys(key(s[i]), key(s[j]), cs) <= 0
  }

  lemma KeysTrans(a: string, b: string, c: string, cs: bool)
    requires CompareKeys(a, b, cs) <= 0 && CompareKeys(b, c, cs) <= 0
    ensures CompareKeys(a, c, cs) <= 0
  {
    if cs {
      CompareTrans(a, b, c);
    } else {
      CompareTrans(Lower(a), Lower(b), Lower(c));
    }
  }

  lemma KeysFlip(a: string, b: string, cs: bool)
    ensures CompareKeys(b, a, cs) == -CompareKeys(a, b, cs)
  {
    if cs {
      CompareFlips(a, b);
    } else {
      CompareFlips(Lower(a), Lower(b));
    }
  }

  /** An element before an ordered rest. */
  lemma OrderedCons<T>(x: T, s: seq<T>, key: T -> string, cs: bool)
    requires Ordered(s, key, cs) && (s != [] ==> CompareKeys(key(x), key(s[0]), cs) <= 0)
    ensures Ordered([x] + s, key, cs)
  {
    var r := [x] + s;
    forall i, j | 0 <= i < j < |r|
      ensures CompareKeys(key(r[i]), key(r[j]), cs) <= 0
    {
      if i == 0 && j > 1 {
        KeysTrans(key(x), key(s[0]), key(s[j - 1]), cs);
      }
    }
  }

  lemma {:induction false} RisingOrdered<T>(s: seq<T>, key: T -> string, cs: bool)
    requires Rising(s, key, cs)
    ensures Ordered(s, key, cs)
    decreases |s|
  {
    if |s| > 1 {
      RisingOrdered(s[1..], key, cs);
      OrderedCons(s[0], s[1..], key, cs);
      assert s == [s[0]] + s[1..];
    }
  }

  lemma {:induction false} MergeOrdered<T>(a: seq<T>, b: seq<T>, key: T -> string, cs: bool)
    requires Ordered(a, key, cs) && Ordered(b, key, cs)
    ensures Ordered(Merge(a, b, key, cs), key, cs)
    decreases |a| + |b|
  {
    if a != [] && b != [] {
      KeysFlip(key(a[0]), key(b[0]), cs);
      if Precedes(a[0], b[0], key, cs) {
        MergeOrdered(a[1..], b, key, cs);
        OrderedCons(a[0], Merge(a[1..], b, key, cs), key, cs);
      } else {
        MergeOrdered(a, b[1..], key, cs);
        OrderedCons(b[0], Merge(a, b[1..], key, cs), key, cs);
      }
    }
  }

  lemma {:induction false} MergeSame<T>(a: seq<T>, b: seq<T>, key: T -> string, cs: bool)
    ensures multiset(Merge(a, b, key, cs)) == multiset(a) + multiset(b)
    decreases |a| + |b|
  {
    hide Precedes;
    if a != [] && b != [] {
      if Precedes(a[0], b[0], key, cs) {
        MergeSame(a[1..], b, key, cs);
        TakeOut(a, a[1..], b, Merge(a[1..], b, key, cs));
      } else {
        MergeSame(a, b[1..], key, cs);
        TakeOut(b, b[1..], a, Merge(a, b[1..], key, cs));
      }
    }
  }

  lemma TakeOut<T>(a: seq<T>, rest: seq<T>, b: seq<T>, merged: seq<T>)
    requires a != [] && rest == a[1..] && multiset(merged) == multiset(rest) + multiset(b)
    ensures multiset([a[0]] + merged) == multiset(a) + multiset(b)
  {
    assert a == [a[0]] + rest;
  }

  /** The sort gives the same elements, by key. */
  lemma {:induction false} MergeSortSorts<T>(s: seq<T>, key: T -> string, cs: bool)
    ensures Ordered(MergeSort(s, key, cs), key, cs)
    ensures multiset(MergeSort(s, key, cs)) == multiset(s)
    decreases |s|
  {
    hide Merge, Rising, Ordered;
    if |s| <= 1 || Rising(s, key, cs) {
      ShortRising(s, key, cs);
      RisingOrdered(s, key, cs);
    } else {
      var m := Middle(|s|);
      var a, b := MergeSort(s[..m], key, cs), MergeSort(s[m..], key, cs);
      MergeSortSorts(s[..m], key, cs);
      MergeSortSorts(s[m..], key, cs);
      assert MergeSort(s, key, cs) == Merge(a, b, key, cs);
      hide MergeSort;
      MergeOrdered(a, b, key, cs);
      MergeSame(a, b, key, cs);
      assert s == s[..m] + s[m..];
    }
  }

  lemma ShortRising<T>(s: seq<T>, key: T -> string, cs: bool)
    ensures |s| <= 1 ==> Rising(s, key, cs)
  {
  }

  // ---------------------------------------------------------------- when the ends stay

  lemma KeysLess(a: string, b: string, c: string, cs: bool)
    requires CompareKeys(a, b, cs) <= 0 && CompareKeys(b, c, cs) <= 0
    requires CompareKeys(a, b, cs) < 0 || CompareKeys(b, c, cs) < 0
    ensures CompareKeys(a, c, cs) < 0
  {
    if cs {
      CompareTrans(a, b, c);
    } else {
      CompareTrans(Lower(a), Lower(b), Lower(c));
    }
  }

  /** The first element goes strictly before all others. */
  ghost predicate FirstLeast<T>(s: seq<T>, key: T -> string, cs: bool) {
    forall i :: 0 < i < |s| ==> CompareKeys(key(s[0]), key(s[i]), cs) < 0
  }

  /** The last element goes strictly after all others. */
  ghost predicate LastGreatest<T>(s: seq<T>, key: T -> string, cs: bool) {
    forall i :: 0 <= i < |s| - 1 ==> CompareKeys(key(s[i]), key(s[|s| - 1]), cs) < 0
  }

  ghost predicate Unequal<T>(s: seq<T>) {
    forall i, j :: 0 <= i < j < |s| ==> s[i] != s[j]
  }

  lemma {:induction false} RisingEnds<T>(s: seq<T>, key: T -> string, cs: bool)
    requires |s| <= 1 || Rising(s, key, cs)
    ensures FirstLeast(s, key, cs) && LastGreatest(s, key, cs)
    decreases |s|
  {
    hide CompareKeys;
    if |s| > 1 {
      RisingEnds(s[1..], key, cs);
      forall i | 0 < i < |s|
        ensures CompareKeys(key(s[0]), key(s[i]), cs) < 0
      {
        assert i > 1 ==> s[i] == s[1..][i - 1];
        if i > 1 {
          KeysLess(key(s[0]), key(s[1]), key(s[i]), cs);
        }
      }
      forall i | 0 <= i < |s| - 1
        ensures CompareKeys(key(s[i]), key(s[|s| - 1]), cs) < 0
      {
        assert i > 0 ==> s[i] == s[1..][i - 1];
      }
    }
  }

  /** Of two ordered lists the one with the later last element ends the merge; on a tie it is the
      first list. */
  lemma {:induction false} MergeLast<T>(a: seq<T>, b: seq<T>, key: T -> string, cs: bool)
    requires a != [] && b != [] && Ordered(a, key, cs) && Ordered(b, key, cs)
    ensures var r := Merge(a, b, key, cs);
            r[|r| - 1] == if Precedes(a[|a| - 1], b[|b| - 1], key, cs) then b[|b| - 1] else a[|a| - 1]
    decreases |a| + |b|
  {
    hide CompareKeys, Merge, Ordered;
    var x, y := a[|a| - 1], b[|b| - 1];
    OrderedEnds(a, key, cs);
    OrderedEnds(b, key, cs);
    MergeUnfold(a, b, key, cs);
    KeysFlip(key(a[0]), key(b[0]), cs);
    KeysFlip(key(x), key(y), cs);
    if Precedes(a[0], b[0], key, cs) {
      if |a| > 1 {
        MergeLast(a[1..], b, key, cs);
      } else {
        KeysLess(key(a[0]), key(b[0]), key(y), cs);
      }
    } else {
      if |b| > 1 {
        MergeLast(a, b[1..], key, cs);
      } else {
        KeysTrans(key(b[0]), key(a[0]), key(x), cs);
      }
    }
  }

  lemma OrderedEnds<T>(s: seq<T>, key: T -> string, cs: bool)
    requires s != [] && Ordered(s, key, cs)
    ensures Ordered(s[1..], key, cs) && CompareKeys(key(s[0]), key(s[|s| - 1]), cs) <= 0
  {
    KeysFlip(key(s[0]), key(s[0]), cs);
    hide CompareKeys;
  }

  lemma MergeUnfold<T>(a: seq<T>, b: seq<T>, key: T -> string, cs: bool)
    requires a != [] && b != []
    ensures Merge(a, b, key, cs) == if Precedes(a[0], b[0], key, cs) then [a[0]] + Merge(a[1..], b, key, cs)
                                    else [b[0]] + Merge(a, b[1..], key, cs)
    ensures Merge([], b, key, cs) == b && Merge(a, [], key, cs) == a
  {
  }

  /** The sort keeps the first element first exactly if it goes strictly before all others. */
  lemma {:induction false} FirstStays<T>(s: seq<T>, key: T -> string, cs: bool)
    requires s != [] && Unequal(s)
    ensures MergeSort(s, key, cs)[0] == s[0] <==> FirstLeast(s, key, cs)
    decreases |s|
  {
    hide Rising, CompareKeys, Merge, Ordered;
    if |s| <= 1 || Rising(s, key, cs) {
      RisingEnds(s, key, cs);
    } else {
      var m := Middle(|s|);
      var a, b := MergeSort(s[..m], key, cs), MergeSort(s[m..], key, cs);
      FirstStays(s[..m], key, cs);
      Sorted0(s[m..], b, key, cs);
      MergeHead(a, b, key, cs);
      assert b[0] in s[m..];
      var j :| 0 <= j < |s[m..]| && s[m..][j] == b[0];
      assert s[m + j] == b[0] && s[..m][0] == s[0];
      FirstOfHalves(s, m, b[0], key, cs);
    }
  }

  lemma MergeHead<T>(a: seq<T>, b: seq<T>, key: T -> string, cs: bool)
    requires a != [] && b != []
    ensures Merge(a, b, key, cs)[0] == if Precedes(a[0], b[0], key, cs) then a[0] else b[0]
  {
  }

  /** The first of the sorted elements is among them and not after any. */
  lemma Sorted0<T>(s: seq<T>, r: seq<T>, key: T -> string, cs: bool)
    requires s != [] && r == MergeSort(s, key, cs)
    ensures r[0] in s && r[|r| - 1] in s
    ensures forall i :: 0 <= i < |s| ==> CompareKeys(key(r[0]), key(s[i]), cs) <= 0
    ensures forall i :: 0 <= i < |s| ==> CompareKeys(key(s[i]), key(r[|r| - 1]), cs) <= 0
  {
    MergeSortSorts(s, key, cs);
    hide MergeSort;
    assert r[0] in multiset(r) && r[|r| - 1] in multiset(r);
    forall i | 0 <= i < |s|
      ensures CompareKeys(key(r[0]), key(s[i]), cs) <= 0 && CompareKeys(key(s[i]), key(r[|r| - 1]), cs) <= 0
    {
      assert s[i] in multiset(s);
      var j :| 0 <= j < |r| && r[j] == s[i];
      KeysFlip(key(s[i]), key(s[i]), cs);
    }
  }

  lemma FirstOfHalves<T>(s: seq<T>, m: nat, least: T, key: T -> string, cs: bool)
    requires 0 < m < |s| && least in s[m..]
    requires forall i :: 0 <= i < |s[m..]| ==> CompareKeys(key(least), key(s[m..][i]), cs) <= 0
    ensures FirstLeast(s, key, cs) <==> FirstLeast(s[..m], key, cs) && Precedes(s[0], least, key, cs)
  {
    hide CompareKeys;
    if FirstLeast(s[..m], key, cs) && Precedes(s[0], least, key, cs) {
      forall i | 0 < i < |s|
        ensures CompareKeys(key(s[0]), key(s[i]), cs) < 0
      {
        if i < m {
          assert s[..m][i] == s[i];
        } else {
          assert s[m..][i - m] == s[i];
          KeysLess(key(s[0]), key(least), key(s[i]), cs);
        }
      }
    }
    if FirstLeast(s, key, cs) {
      var j :| 0 <= j < |s[m..]| && s[m..][j] == least;
      assert s[m + j] == least;
      assert forall i :: 0 < i < m ==> s[..m][i] == s[i];
    }
  }

  /** And the last element last exactly if it goes strictly after all others. */
  lemma {:induction false} LastStays<T>(s: seq<T>, key: T -> string, cs: bool)
    requires s != [] && Unequal(s)
    ensures MergeSort(s, key, cs)[|s| - 1] == s[|s| - 1] <==> LastGreatest(s, key, cs)
    decreases |s|
  {
    hide Rising, CompareKeys, Merge, Ordered, LastGreatest, Precedes, Unequal;
    if |s| <= 1 || Rising(s, key, cs) {
      RisingEnds(s, key, cs);
    } else {
      var m := Middle(|s|);
      var front, back := s[..m], s[m..];
      var a, b := MergeSort(front, key, cs), MergeSort(back, key, cs);
      assert MergeSort(s, key, cs) == Merge(a, b, key, cs);
      UnequalHalves(s, m);
      LastStays(back, key, cs);
      hide MergeSort;
      Sorted0(front, a, key, cs);
      MergeSortSorts(front, key, cs);
      MergeSortSorts(back, key, cs);
      MergeLast(a, b, key, cs);
      LastOfHalves(s, m, a[|a| - 1], key, cs);
    }
  }

  lemma UnequalHalves<T>(s: seq<T>, m: nat)
    requires Unequal(s) && 0 < m < |s|
    ensures Unequal(s[m..]) && s[m..][|s| - m - 1] == s[|s| - 1] && s[|s| - 1] !in s[..m]
  {
  }

  lemma LastOfHalves<T>(s: seq<T>, m: nat, greatest: T, key: T -> string, cs: bool)
    requires 0 < m < |s| && greatest in s[..m]
    requires forall i :: 0 <= i < |s[..m]| ==> CompareKeys(key(s[..m][i]), key(greatest), cs) <= 0
    ensures LastGreatest(s, key, cs) <==> LastGreatest(s[m..], key, cs) && Precedes(greatest, s[|s| - 1], key, cs)
  {
    hide CompareKeys;
    if LastGreatest(s[m..], key, cs) && Precedes(greatest, s[|s| - 1], key, cs) {
      forall i | 0 <= i < |s| - 1
        ensures CompareKeys(key(s[i]), key(s[|s| - 1]), cs) < 0
      {
        if i < m {
          assert s[..m][i] == s[i];
          KeysLess(key(s[i]), key(greatest), key(s[|s| - 1]), cs);
        } else {
          assert s[m..][i - m] == s[i];
        }
      }
    }
    if LastGreatest(s, key, cs) {
      var j :| 0 <= j < |s[..m]| && s[..m][j] == greatest;
      assert s[j] == greatest;
      assert forall i :: 0 <= i < |s[m..]| ==> s[m..][i] == s[m + i];
    }
  }

  // ---------------------------------------------------------------- on linked nodes

  function KeyOf(x: Item): string {
    x.key
  }

  /** Walking from `list` along `next` gives `s`; `prev` inverts `next` but for the head. */
  ghost predicate Chained(list: Item?, s: seq<Item>)
    reads s`next, s`prev
  {
    && list == ItemAt(s, 0)
    && Distinct(s)
    && forall i :: 0 <= i < |s| ==> ChainedAt(s, i)
  }

  function ItemAt(s: seq<Item>, i: nat): Item? {
    if i < |s| then s[i] else null
  }

  ghost predicate ChainedAt(s: seq<Item>, i: nat)
    requires i < |s|
    reads {s[i]}`next, {s[i]}`prev
  {
    s[i].next == ItemAt(s, i + 1) && (i > 0 ==> s[i].prev == s[i - 1])
  }

  /** A child list in order is such a chain. */
  lemma ChildrenChained(parent: Item, s: seq<Item>)
    requires Children(parent, s)
    ensures Chained(parent.child, s)
  {
    forall i | 0 <= i < |s|
      ensures ChainedAt(s, i)
    {
      assert LinkedAt(s, i);
    }
  }

  /** The first loop of `sort_list`. */
  method IsRising(list: Item?, cs: bool, ghost s: seq<Item>) returns (rising: bool)
    requires Chained(list, s)
    ensures rising == Rising(s, KeyOf, cs)
  {
    var current := list;
    ghost var k := 0;
    while current != null && current.next != null && CompareKeys(current.key, current.next.key, cs) < 0
      invariant k <= |s| && current == ItemAt(s, k)
      invariant Rising(s[k..], KeyOf, cs) == Rising(s, KeyOf, cs)
      decreases |s| - k
    {
      assert ChainedAt(s, k);
      assert s[k..][1..] == s[k + 1..];
      current := current.next;
      k := k + 1;
    }
    if k < |s| {
      assert ChainedAt(s, k);
    }
    rising := current == null || current.next == null;
  }

  /** The loop that walks one pointer half as fast as the other. */
  method FindMiddle(list: Item?, ghost s: seq<Item>) returns (second: Item?)
    requires Chained(list, s)
    ensures second == ItemAt(s, Middle(|s|))
  {
    second := list;
    var current := list;
    ghost var t := 0;
    while current != null
      invariant t <= Middle(|s|) && second == ItemAt(s, t)
      invariant current == ItemAt(s, 2 * t)
      decreases |s| - t
    {
      assert ChainedAt(s, t) && ChainedAt(s, 2 * t);
      assert 2 * t + 1 < |s| ==> ChainedAt(s, 2 * t + 1);
      second := second.next;
      current := current.next;
      if current != null {
        current := current.next;
      }
      t := t + 1;
    }
    assert 2 * t >= |s|;
  }

  /** `sort_list`: the nodes are relinked in the order of the sort on sequences. */
  method SortList(list: Item?, cs: bool, ghost s: seq<Item>) returns (result: Item?)
    requires Chained(list, s)
    modifies s`next, s`prev
    ensures Chained(result, SortedNodes(s, cs))
    ensures list == null <==> result == null
    ensures result != null ==> result.prev == if result == list then old(list.prev) else null
    decreases |s|, 1
  {
    hide Chained, Apart, SortedNodes, Merge, Rising, Distinct;
    ChainStart(list, s, cs);
    if list == null || list.next == null {
      return list;
    }
    var rising := IsRising(list, cs, s);
    if rising {
      return list;
    }
    ghost var m := Middle(|s|);
    var second := FindMiddle(list, s);
    Split(list, second, s, m);
    MergeSortUnfolds(s, cs);
    result := SortHalves(list, second, cs, s, m);
  }

  /** Its recursive calls on the two halves, and the merge. */
  method SortHalves(list: Item, list2: Item, cs: bool, ghost s: seq<Item>, ghost m: nat) returns (result: Item)
    requires Distinct(s) && 0 < m < |s| && list == s[0] && list2 == s[m] && list2.prev == null
    requires Chained(list, s[..m]) && Chained(list2, s[m..])
    modifies s`next, s`prev
    ensures Chained(result, Merge(SortedNodes(s[..m], cs), SortedNodes(s[m..], cs), KeyOf, cs))
    ensures result.prev == if result == list then old(list.prev) else null
    decreases |s|, 0
  {
    hide Chained, Apart, SortedNodes, Merge, Distinct;
    ghost var a, b := SortedNodes(s[..m], cs), SortedNodes(s[m..], cs);
    SortedApart(s, m, cs);
    var first := SortList(list, cs, s[..m]);
    assert list2.prev == null;
    ChainHead(first, a);
    ghost var p := first.prev;
    var second := SortList(list2, cs, s[m..]);
    ChainHead(second, b);
    assert first.prev == p && second.prev == null;
    result := MergeLists(first, second, cs, a, b);
  }

  /** `sort_object`. The `prev` of the new head is the old tail if the head stayed, and NULL
      otherwise; so the result is a child list again exactly if both ends stay, that is, if the
      first key goes strictly before all others and the last key strictly after all others. */
  method SortObject(parent: Item?, cs: bool, ghost s: seq<Item>)
    requires parent != null ==> Children(parent, s)
    modifies Cell(parent)`child, s`next, s`prev
    ensures parent != null ==> Chained(parent.child, SortedNodes(s, cs))
    ensures parent != null ==>
              (Children(parent, SortedNodes(s, cs)) <==> FirstLeast(s, KeyOf, cs) && LastGreatest(s, KeyOf, cs))
  {
    if parent == null {
      return;
    }
    ChildrenChained(parent, s);
    ghost var tail := if s == [] then null else s[0].prev;
    assert s != [] ==> LinkedAt(s, 0) && tail == s[|s| - 1];
    EndsStay(s, cs);
    hide SortedNodes, Chained, Children, FirstLeast, LastGreatest;
    ChainHead(parent.child, s);
    parent.child := SortList(parent.child, cs, s);
    ChainHead(parent.child, SortedNodes(s, cs));
    ChainedIsChildren(parent, SortedNodes(s, cs));
  }

  /** Both ends stay exactly if their keys are strictly least and strictly greatest. */
  lemma EndsStay(s: seq<Item>, cs: bool)
    requires Distinct(s)
    ensures var r := SortedNodes(s, cs);
            s == [] || (r[0] == s[0] && r[|r| - 1] == s[|s| - 1]) <==>
            FirstLeast(s, KeyOf, cs) && LastGreatest(s, KeyOf, cs)
  {
    if s != [] {
      FirstStays(s, KeyOf, cs);
      LastStays(s, KeyOf, cs);
    }
  }

  /** A chain is a child list exactly if its head's `prev` is its tail. */
  lemma ChainedIsChildren(parent: Item, r: seq<Item>)
    requires Chained(parent.child, r)
    ensures Children(parent, r) <==> r == [] || r[0].prev == r[|r| - 1]
  {
    if r != [] {
      assert LinkedAt(r, 0) <==> r[0].prev == r[|r| - 1] by {
        assert ChainedAt(r, 0);
      }
      if r[0].prev == r[|r| - 1] {
        forall i | 0 <= i < |r|
          ensures LinkedAt(r, i)
        {
          assert ChainedAt(r, i);
        }
      }
    }
  }

  lemma ChainStart(list: Item?, s: seq<Item>, cs: bool)
    requires Chained(list, s)
    ensures Distinct(s) && list == ItemAt(s, 0) && (|s| > 0 ==> s[0].next == ItemAt(s, 1))
    ensures |s| <= 1 || Rising(s, KeyOf, cs) ==> SortedNodes(s, cs) == s
  {
    assert |s| > 0 ==> ChainedAt(s, 0);
  }

  lemma ChainHead(list: Item?, s: seq<Item>)
    requires Chained(list, s)
    ensures list == ItemAt(s, 0)
  {
  }

  function SortedNodes(s: seq<Item>, cs: bool): (r: seq<Item>)
    ensures |r| == |s|
  {
    MergeSort(s, KeyOf, cs)
  }

  lemma MergeSortUnfolds(s: seq<Item>, cs: bool)
    requires |s| > 1 && !Rising(s, KeyOf, cs)
    ensures var m := Middle(|s|);
            SortedNodes(s, cs) == Merge(SortedNodes(s[..m], cs), SortedNodes(s[m..], cs), KeyOf, cs)
  {
  }

  /** The two halves are cut apart in the middle. */
  method Split(list: Item, second: Item?, ghost s: seq<Item>, ghost m: nat)
    requires Chained(list, s) && 0 < m < |s| && second == s[m]
    modifies s`next, s`prev
    ensures Chained(list, s[..m]) && Chained(second, s[m..])
    ensures list.prev == old(list.prev) && s[m].prev == null
  {
    assert ChainedAt(s, m) && ChainedAt(s, m - 1);
    if second != null && second.prev != null {
      second.prev.next := null;
      second.prev := null;
    }
    ghost var a, b := s[..m], s[m..];
    forall k | 0 <= k < |a|
      ensures ChainedAt(a, k)
    {
      assert old(ChainedAt(s, k)) && s[k] != s[m];
      assert k < m - 1 ==> s[k] != s[m - 1];
    }
    forall k | 0 <= k < |b|
      ensures ChainedAt(b, k)
    {
      assert old(ChainedAt(s, m + k)) && s[m + k] != s[m - 1];
      assert k > 0 ==> s[m + k] != s[m];
    }
  }

  lemma SortedMembers(s: seq<Item>, cs: bool)
    ensures forall k :: 0 <= k < |s| ==> MergeSort(s, KeyOf, cs)[k] in s
  {
    var r := MergeSort(s, KeyOf, cs);
    MergeSortSorts(s, KeyOf, cs);
    forall k | 0 <= k < |s|
      ensures r[k] in s
    {
      assert r[k] in multiset(r);
    }
  }

  /** Sorting keeps the two halves apart. */
  lemma SortedApart(s: seq<Item>, m: nat, cs: bool)
    requires Distinct(s) && m <= |s|
    ensures var a, b := SortedNodes(s[..m], cs), SortedNodes(s[m..], cs);
            && Apart(a, b, 0)
            && (forall k :: 0 <= k < |a| ==> a[k] in s && a[k] !in s[m..])
            && (forall k :: 0 <= k < |b| ==> b[k] in s && b[k] in s[m..])
    ensures forall k :: 0 <= k < m ==> s[k] !in s[m..]
    ensures m < |s| ==> s[m] !in s[..m]
  {
    hide MergeSort;
    SortedMembers(s[..m], cs);
    SortedMembers(s[m..], cs);
    var a, b := SortedNodes(s[..m], cs), SortedNodes(s[m..], cs);
    forall k, l | 0 <= k < |a| && 0 <= l < |b|
      ensures a[k] != b[l]
    {
      assert a[k] in s[..m] && b[l] in s[m..];
    }
    forall k | 0 <= k < |a|
      ensures a[k] in s && a[k] !in s[m..]
    {
      assert a[k] in s[..m];
    }
  }

  /** From place `i` on, `a` is still linked as it was. */
  ghost predicate Rest(a: seq<Item>, i: nat)
    reads a
  {
    i <= |a| && forall k :: i <= k < |a| ==> RestAt(a, i, k)
  }

  ghost predicate RestAt(a: seq<Item>, i: nat, k: nat)
    requires k < |a|
    reads a[k]
  {
    a[k].next == ItemAt(a, k + 1) && (k > i ==> k > 0 && a[k].prev == a[k - 1])
  }

  /** The merged nodes; the last one's `next` is still to be set. */
  ghost predicate Joined(r: seq<Item>)
    reads r
  {
    Distinct(r) && forall k :: 0 <= k < |r| ==> JoinedAt(r, k)
  }

  ghost predicate JoinedAt(r: seq<Item>, k: nat)
    requires k < |r|
    reads r[k]
  {
    (k + 1 < |r| ==> r[k].next == r[k + 1]) && (k > 0 ==> r[k].prev == r[k - 1])
  }

  predicate Apart(r: seq<Item>, a: seq<Item>, i: nat) {
    forall k, l :: 0 <= k < |r| && i <= l < |a| ==> r[k] != a[l]
  }

  /** Hang `x`, the head of what is left of `a`, behind what is merged so far. */
  method TakeHead(tail: Item?, x: Item, ghost r: seq<Item>,
                  ghost a: seq<Item>, ghost i: nat, ghost b: seq<Item>, ghost j: nat)
    requires Joined(r) && Rest(a, i) && Rest(b, j) && Distinct(a)
    requires Apart(r, a, i) && Apart(r, b, j) && Apart(a, b, 0)
    requires i < |a| && x == a[i] && tail == (if r == [] then null else r[|r| - 1])
    modifies Cell(tail)`next, x`prev
    ensures Joined(r + [x]) && Rest(a, i + 1) && Rest(b, j)
    ensures Apart(r + [x], a, i + 1) && Apart(r + [x], b, j)
    ensures x.next == ItemAt(a, i + 1) && (tail == null ==> x.prev == old(x.prev))
  {
    ghost var t := r + [x];
    assert RestAt(a, i, i);
    if tail != null {
      tail.next := x;
      x.prev := tail;
    }
    forall k | 0 <= k < |t|
      ensures JoinedAt(t, k)
    {
      if k < |r| {
        assert old(JoinedAt(r, k)) && t[k] == r[k] && r[k] != a[i];
        assert k < |r| - 1 ==> r[k] != r[|r| - 1] && t[k + 1] == r[k + 1];
      }
    }
    ghost var n := i + 1;
    forall k | n <= k < |a|
      ensures RestAt(a, n, k)
    {
      assert old(RestAt(a, i, k)) && a[k] != a[i];
      assert |r| > 0 ==> r[|r| - 1] != a[k];
    }
    forall k | j <= k < |b|
      ensures RestAt(b, j, k)
    {
      assert old(RestAt(b, j, k)) && a[i] != b[k];
      assert |r| > 0 ==> r[|r| - 1] != b[k];
    }
  }

  /** The last loop of `sort_list`. */
  method MergeLists(list1: Item?, list2: Item?, cs: bool, ghost a: seq<Item>, ghost b: seq<Item>)
      returns (result: Item?)
    requires Chained(list1, a) && Chained(list2, b) && Apart(a, b, 0)
    modifies a`next, a`prev, b`next, b`prev
    ensures Chained(result, Merge(a, b, KeyOf, cs))
    ensures result == null <==> list1 == null && list2 == null
    ensures result != null ==> || (result == list1 && result.prev == old(list1.prev))
                               || (result == list2 && result.prev == old(list2.prev))
  {
    hide Chained, Rest, Joined, Apart, Distinct, Merge, MergedSoFar, CompareKeys;
    var first, second := list1, list2;
    result := null;
    var tail: Item? := null;
    ghost var i: nat, j: nat, r: seq<Item> := 0, 0, [];
    ghost var p1 := if list1 == null then null else list1.prev;
    ghost var p2 := if list2 == null then null else list2.prev;
    MergeStart(list1, list2, a, b, cs);
    while first != null && second != null
      invariant first == ItemAt(a, i) && second == ItemAt(b, j)
      invariant Joined(r) && Rest(a, i) && Rest(b, j)
      invariant Apart(r, a, i) && Apart(r, b, j)
      invariant result == ItemAt(r, 0) && tail == (if r == [] then null else r[|r| - 1])
      invariant (tail == null || tail in a || tail in b) && (first != null || second != null || r == [])
      invariant Distinct(a) && Distinct(b) && Apart(a, b, 0) && Apart(b, a, 0)
      invariant MergedSoFar(r, a, i, b, j, cs)
      invariant result == null ==> first == list1 && second == list2
      invariant result == null ==> (first != null ==> first.prev == p1) && (second != null ==> second.prev == p2)
      invariant result != null ==> (result == list1 && result.prev == p1) || (result == list2 && result.prev == p2)
      decreases |a| + |b| - i - j
    {
      HeadApart(r, a, i);
      HeadApart(r, b, j);
      ghost var takeA := CompareKeys(first.key, second.key, cs) < 0;
      tail, first, second := TakeSmaller(tail, first, second, cs, r, a, i, b, j);
      r := r + [tail];
      i, j := if takeA then i + 1 else i, if takeA then j else j + 1;
      if result == null {
        result := tail;
      }
    }
    HeadApart(r, a, i);
    HeadApart(r, b, j);
    if first != null {
      result := AppendRest(tail, result, first, r, a, i);
    } else if second != null {
      result := AppendRest(tail, result, second, r, b, j);
    }
    MergeEnd(first, second, r, a, i, b, j, cs);
    EmptyChain();
  }

  lemma HeadApart(r: seq<Item>, a: seq<Item>, i: nat)
    requires Apart(r, a, i)
    ensures r != [] && i < |a| ==> r[0] != a[i]
  {
  }

  lemma EmptyChain()
    ensures Chained(null, [])
  {
  }

  /** The rest of one list goes behind what is merged. */
  method AppendRest(tail: Item?, head: Item?, x: Item, ghost r: seq<Item>, ghost a: seq<Item>, ghost i: nat)
      returns (result: Item)
    requires Joined(r) && Rest(a, i) && Distinct(a) && Apart(r, a, i)
    requires i < |a| && x == a[i] && head == ItemAt(r, 0) && tail == (if r == [] then null else r[|r| - 1])
    modifies Cell(tail)`next, x`prev
    ensures Chained(result, r + a[i..])
    ensures result == (if head == null then x else head) && result.prev == old(result.prev)
  {
    ghost var t := r + a[i..];
    if head == null {
      result := x;
    } else {
      tail.next := x;
      x.prev := tail;
      result := head;
    }
    forall k | 0 <= k < |t|
      ensures ChainedAt(t, k)
    {
      if k < |r| {
        assert old(JoinedAt(r, k)) && t[k] == r[k] && r[k] != a[i];
        assert k < |r| - 1 ==> r[k] != r[|r| - 1] && t[k + 1] == r[k + 1];
      } else {
        assert old(RestAt(a, i, i + (k - |r|)));
        assert |r| > 0 ==> r[|r| - 1] != a[i + (k - |r|)];
      }
    }
  }

  lemma MergeEnd(first: Item?, second: Item?, r: seq<Item>, a: seq<Item>, i: nat, b: seq<Item>, j: nat, cs: bool)
    requires MergedSoFar(r, a, i, b, j, cs) && first == ItemAt(a, i) && second == ItemAt(b, j)
    requires first == null || second == null
    ensures Merge(a, b, KeyOf, cs) == r + if first != null then a[i..] else b[j..]
  {
  }

  /** One turn of it. */
  method TakeSmaller(tail: Item?, first: Item, second: Item, cs: bool, ghost r: seq<Item>,
                     ghost a: seq<Item>, ghost i: nat, ghost b: seq<Item>, ghost j: nat)
      returns (smaller: Item, first': Item?, second': Item?)
    requires first == ItemAt(a, i) && second == ItemAt(b, j)
    requires Joined(r) && Rest(a, i) && Rest(b, j) && Distinct(a) && Distinct(b)
    requires Apart(r, a, i) && Apart(r, b, j) && Apart(a, b, 0) && Apart(b, a, 0)
    requires tail == (if r == [] then null else r[|r| - 1]) && MergedSoFar(r, a, i, b, j, cs)
    modifies Cell(tail)`next, first`prev, second`prev
    ensures var takeA := CompareKeys(first.key, second.key, cs) < 0;
            var i', j' := if takeA then i + 1 else i, if takeA then j else j + 1;
            && smaller == (if takeA then first else second)
            && first' == ItemAt(a, i') && second' == ItemAt(b, j')
            && Joined(r + [smaller]) && Rest(a, i') && Rest(b, j')
            && Apart(r + [smaller], a, i') && Apart(r + [smaller], b, j')
            && MergedSoFar(r + [smaller], a, i', b, j', cs)
    ensures tail == null ==> smaller.prev == old(smaller.prev)
  {
    hide Rest, Joined, Apart, Distinct;
    MergeMore(r, a, i, b, j, cs);
    hide MergedSoFar;
    first', second' := first, second;
    if CompareKeys(first.key, second.key, cs) < 0 {
      smaller := first;
      TakeHead(tail, first, r, a, i, b, j);
      first' := first.next;
    } else {
      smaller := second;
      TakeHead(tail, second, r, b, j, a, i);
      second' := second.next;
    }
  }

  predicate MergedSoFar(r: seq<Item>, a: seq<Item>, i: nat, b: seq<Item>, j: nat, cs: bool) {
    && i <= |a| && j <= |b|
    && Merge(a, b, KeyOf, cs) == r + Merge(a[i..], b[j..], KeyOf, cs)
  }

  lemma MergeMore(r: seq<Item>, a: seq<Item>, i: nat, b: seq<Item>, j: nat, cs: bool)
    requires i < |a| && j < |b| && MergedSoFar(r, a, i, b, j, cs)
    ensures if CompareKeys(a[i].key, b[j].key, cs) < 0 then MergedSoFar(r + [a[i]], a, i + 1, b, j, cs)
            else MergedSoFar(r + [b[j]], a, i, b, j + 1, cs)
  {
    assert a[i..][1..] == a[i + 1..] && b[j..][1..] == b[j + 1..];
    var m := Merge(a[i..], b[j..], KeyOf, cs);
    if CompareKeys(a[i].key, b[j].key, cs) < 0 {
      assert r + m == r + [a[i]] + Merge(a[i + 1..], b[j..], KeyOf, cs);
    } else {
      assert r + m == r + [b[j]] + Merge(a[i..], b[j + 1..], KeyOf, cs);
    }
  }

  lemma ChainedRest(list: Item?, a: seq<Item>)
    requires Chained(list, a)
    ensures Rest(a, 0)
  {
    forall k | 0 <= k < |a|
      ensures RestAt(a, 0, k)
    {
      assert ChainedAt(a, k);
    }
  }

  lemma MergeStart(list1: Item?, list2: Item?, a: seq<Item>, b: seq<Item>, cs: bool)
    requires Chained(list1, a) && Chained(list2, b) && Apart(a, b, 0)
    ensures Rest(a, 0) && Rest(b, 0) && Joined([]) && Apart([], a, 0) && Apart([], b, 0)
    ensures list1 == ItemAt(a, 0) && list2 == ItemAt(b, 0)
    ensures Distinct(a) && Distinct(b) && Apart(b, a, 0) && MergedSoFar([], a, 0, b, 0, cs)
  {
    ChainedRest(list1, a);
    ChainedRest(list2, b);
    assert a[0..] == a && b[0..] == b;
  }
}
