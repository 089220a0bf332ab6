/**
 The list in which cJSON.c keeps the children of an array or object: linked both ways, with the
 `prev` of the first child pointing at the last one so that appending needs no walk. Each
 operation is proved to realise an operation on the sequence of children, by relinking in place.
 */
module SiblingLists {
  class Item {
    const key: string
    var next: Item?
    var prev: Item?
    var child: Item?

    constructor (key: string)
      ensures this.key == key && next == null && prev == null && child == null
    {
      this.key := key;
      next, prev, child := null, null, null;
    }
  }

  /** `s` is the list of children below `parent`: `prev` inverts `next`, and the `prev` of the
      head is the tail. */
  ghost predicate Children(parent: Item, s: seq<Item>)
    reads parent, s
  {
    && parent.child == (if s == [] then null else s[0])
    && Distinct(s)
    && Linked(s)
  }

  predicate Distinct(s: seq<Item>) {
    forall i, j :: 0 <= i < j < |s| ==> s[i] != s[j]
  }

  ghost predicate Linked(s: seq<Item>)
    reads s
  {
    forall i :: 0 <= i < |s| ==> LinkedAt(s, i)
  }

  ghost predicate LinkedAt(s: seq<Item>, i: nat)
    requires i < |s|
    reads s[i]
  {
    s[i].next == After(s, i) && s[i].prev == Before(s, i)
  }

  function Cell(x: Item?): set<Item> {
    if x == null then {} else {x}
  }

  function After(s: seq<Item>, i: nat): Item?
    requires i < |s|
  {
    if i + 1 < |s| then s[i + 1] else null
  }

  function Before(s: seq<Item>, i: nat): Item
    requires i < |s|
  {
    if i == 0 then s[|s| - 1] else s[i - 1]
  }

  // ---------------------------------------------------------------- the sequence is determined

  /** The links leave no choice: two sequences that fit the same parent are the same. */
  lemma ChildrenUnique(parent: Item, s: seq<Item>, t: seq<Item>)
    requires Children(parent, s) && Children(parent, t)
    ensures s == t
  {
    if |s| <= |t| {
      SamePlaces(parent, s, t, |s|);
    } else {
      SamePlaces(parent, t, s, |t|);
    }
  }

  lemma {:induction false} SamePlaces(parent: Item, s: seq<Item>, t: seq<Item>, n: nat)
    requires Children(parent, s) && Children(parent, t) && n <= |s| <= |t|
    ensures s[..n] == t[..n]
    ensures n == |s| ==> |t| == |s|
    decreases n
  {
    if n > 0 {
      SamePlaces(parent, s, t, n - 1);
      if n > 1 {
        assert s[n - 2] == s[..n - 1][n - 2] == t[..n - 1][n - 2] == t[n - 2];
        assert LinkedAt(s, n - 2) && LinkedAt(t, n - 2);
      }
      assert s[..n] == s[..n - 1] + [s[n - 1]] && t[..n] == t[..n - 1] + [t[n - 1]];
      assert LinkedAt(s, n - 1) && LinkedAt(t, n - 1);
    }
  }

  // ---------------------------------------------------------------- the operations

  /** `get_array_item`. */
  method GetArrayItem(parent: Item?, index: nat, ghost s: seq<Item>) returns (found: Item?)
    requires parent != null ==> Children(parent, s)
    ensures found == if parent != null && index < |s| then s[index] else null
  {
    if parent == null {
      return null;
    }
    found := parent.child;
    var left := index;
    while found != null && left > 0
      invariant 0 <= left <= index
      invariant index - left < |s| ==> found == s[index - left] && found != null
      invariant index - left >= |s| ==> found == null && index >= |s|
      decreases left
    {
      assert LinkedAt(s, index - left);
      left := left - 1;
      found := found.next;
    }
  }

  /** `add_item_to_array`. Appending to a list that is not empty leaves the `next` of the item as
      it is: the result is a list exactly if that was NULL, as in a new or detached item. */
  method AddItemToArray(parent: Item?, item: Item?, ghost s: seq<Item>) returns (ok: bool)
    requires parent != null ==> Children(parent, s)
    requires item != null && parent != null ==> item !in s
    modifies Cell(parent)`child, Cell(item)`next, Cell(item)`prev, s`next, s`prev
    ensures ok == (item != null && parent != null && parent != item)
    ensures ok ==> (Children(parent, s + [item]) <==> s == [] || old(item.next) == null)
    ensures !ok && parent != null ==> Children(parent, s)
  {
    if item == null || parent == null || parent == item {
      return false;
    }
    ghost var t := s + [item];
    var child := parent.child;
    if child == null {
      parent.child := item;
      item.prev := item;
      item.next := null;
    } else {
      assert LinkedAt(s, 0) && LinkedAt(s, |s| - 1);
      if child.prev != null {
        SuffixObject(child.prev, item);
        parent.child.prev := item;
      }
    }
    assert t[|s|] == item && After(t, |s|) == null;
    assert LinkedAt(t, |s|) <==> s == [] || old(item.next) == null;
    forall k | 0 <= k < |t| && (s == [] || old(item.next) == null)
      ensures LinkedAt(t, k)
    {
      if k < |s| {
        assert old(LinkedAt(s, k)) && s[k] != item && t[k] == s[k];
        assert k > 0 ==> s[k] != s[0] && t[k - 1] == s[k - 1];
        assert k < |s| - 1 ==> s[k] != s[|s| - 1] && t[k + 1] == s[k + 1];
      }
    }
    return true;
  }

  /** `suffix_object`. */
  method SuffixObject(last: Item, item: Item)
    modifies last`next, item`prev
    ensures last.next == item && item.prev == last
  {
    last.next := item;
    item.prev := last;
  }

  /** `cJSON_DetachItemViaPointer`, for the item at place `i`. */
  method DetachItemViaPointer(parent: Item?, item: Item?, ghost s: seq<Item>, ghost i: nat) returns (r: Item?)
    requires parent != null ==> Children(parent, s)
    requires parent != null && item != null ==> i < |s| && item == s[i]
    modifies Cell(parent)`child, s`next, s`prev
    ensures r == if parent == null then null else item
    ensures r != null ==> Children(parent, s[..i] + s[i + 1..]) && item.next == null && item.prev == null
    ensures r == null && parent != null ==> Children(parent, s)
  {
    if parent == null || item == null {
      return null;
    }
    ghost var t := s[..i] + s[i + 1..];
    assert LinkedAt(s, i) && (i + 1 < |s| ==> LinkedAt(s, i + 1));
    assert i > 0 ==> s[i] != s[0] && LinkedAt(s, i - 1);
    assert LinkedAt(s, 0) && LinkedAt(s, |s| - 1);
    if item != parent.child {
      item.prev.next := item.next;
    }
    if item.next != null {
      item.next.prev := item.prev;
    }
    if item == parent.child {
      parent.child := item.next;
    } else if item.next == null {
      parent.child.prev := item.prev;
    }
    item.prev := null;
    item.next := null;
    forall k | 0 <= k < |t|
      ensures LinkedAt(t, k)
    {
      var j := if k < i then k else k + 1;
      assert old(LinkedAt(s, j)) && s[j] != s[i] && t[k] == s[j];
      assert k + 1 < |t| ==> t[k + 1] == if k + 1 < i then s[k + 1] else s[k + 2];
      assert k > 0 ==> t[k - 1] == if k - 1 < i then s[k - 1] else s[k];
      assert i > 0 && j != i - 1 ==> s[j] != s[i - 1];
      assert i + 1 < |s| && j != i + 1 ==> s[j] != s[i + 1];
      assert j > 0 ==> s[j] != s[0];
      assert j < |s| - 1 ==> s[j] != s[|s| - 1];
    }
    return item;
  }

  /** `cJSON_DetachItemFromArray`. */
  method DetachItemFromArray(parent: Item?, which: int, ghost s: seq<Item>) returns (r: Item?)
    requires parent != null ==> Children(parent, s)
    modifies Cell(parent)`child, s`next, s`prev
    ensures r == if parent != null && 0 <= which < |s| then s[which] else null
    ensures r != null ==> Children(parent, s[..which] + s[which + 1..]) && r.next == null && r.prev == null
    ensures r == null && parent != null ==> Children(parent, s)
  {
    if which < 0 {
      return null;
    }
    var item := GetArrayItem(parent, which, s);
    r := DetachItemViaPointer(parent, item, s, which);
  }

  /** `cJSON_InsertItemInArray`: in front of the item at place `which`, or at the end. */
  method InsertItemInArray(parent: Item?, which: int, item: Item?, ghost s: seq<Item>) returns (ok: bool)
    requires parent != null ==> Children(parent, s)
    requires item != null && parent != null ==> item !in s
    requires parent != null && 0 <= which < |s| ==> item != null
    modifies Cell(parent)`child, Cell(item)`next, Cell(item)`prev, s`next, s`prev
    ensures ok <==> parent != null && item != null && which >= 0 && (which < |s| || item != parent)
    ensures ok && which < |s| ==> Children(parent, s[..which] + [item] + s[which..])
    ensures ok && which >= |s| ==> (Children(parent, s + [item]) <==> s == [] || old(item.next) == null)
    ensures !ok && parent != null ==> Children(parent, s)
  {
    if which < 0 {
      return false;
    }
    var after := GetArrayItem(parent, which, s);
    if after == null {
      ok := AddItemToArray(parent, item, s);
      return;
    }
    ghost var t := s[..which] + [item] + s[which..];
    assert LinkedAt(s, which) && (which > 0 ==> s[which] != s[0] && LinkedAt(s, which - 1));
    item.next := after;
    item.prev := after.prev;
    after.prev := item;
    if after == parent.child {
      parent.child := item;
    } else {
      item.prev.next := item;
    }
    forall k | 0 <= k < |t|
      ensures LinkedAt(t, k)
    {
      assert k + 1 < |t| ==> t[k + 1] == if k + 1 < which then s[k + 1] else if k + 1 == which then item else s[k];
      assert k > 0 ==> t[k - 1] == if k - 1 < which then s[k - 1] else if k - 1 == which then item else s[k - 2];
      if k != which {
        var j := if k < which then k else k - 1;
        assert old(LinkedAt(s, j)) && s[j] != item && t[k] == s[j];
        assert which > 0 && j != which - 1 ==> s[j] != s[which - 1];
        assert j != which ==> s[j] != s[which];
      }
    }
    return true;
  }

  /** `cJSON_ReplaceItemViaPointer`, for the item at place `i`. The replaced item is left
      unlinked; its release is not modelled. */
  method ReplaceItemViaPointer(parent: Item?, item: Item?, replacement: Item?, ghost s: seq<Item>, ghost i: nat)
      returns (ok: bool)
    requires parent != null ==> Children(parent, s)
    requires parent != null && item != null ==> i < |s| && item == s[i]
    requires replacement != null && replacement != item ==> replacement !in s
    modifies Cell(parent)`child, Cell(replacement)`next, Cell(replacement)`prev, s`next, s`prev
    ensures ok == (parent != null && item != null && replacement != null)
    ensures ok ==> Children(parent, s[i := replacement])
    ensures ok && replacement != item ==> item.next == null && item.prev == null
    ensures !ok && parent != null ==> Children(parent, s)
  {
    if parent == null || replacement == null || item == null {
      return false;
    }
    if replacement == item {
      assert s[i := replacement] == s;
      return true;
    }
    ghost var t := s[i := replacement];
    assert LinkedAt(s, i) && LinkedAt(s, 0) && (i > 0 ==> s[i] != s[0]);
    assert |s| > 1 ==> s[0] != s[|s| - 1];
    replacement.next := item.next;
    replacement.prev := item.prev;
    if replacement.next != null {
      replacement.next.prev := replacement;
    }
    if parent.child == item {
      if parent.child.prev == parent.child {
        replacement.prev := replacement;
      }
      parent.child := replacement;
    } else {
      if replacement.prev != null {
        replacement.prev.next := replacement;
      }
      if replacement.next == null {
        parent.child.prev := replacement;
      }
    }
    item.next := null;
    item.prev := null;
    forall k | 0 <= k < |t|
      ensures LinkedAt(t, k)
    {
      if k != i {
        assert old(LinkedAt(s, k)) && s[k] != s[i] && s[k] != replacement;
        assert k > 0 ==> s[k] != s[0];
        assert i > 0 && k != i - 1 ==> s[k] != s[i - 1];
        assert i + 1 < |s| && k != i + 1 ==> s[k] != s[i + 1];
      }
    }
    return true;
  }
}
