/** The loops of merge patch as the C code runs them, proved against the functions of MergePatches. */
module MergePatchLoops {
  import opened Wrappers
  import opened CStrings
  import opened CJson
  import opened CJsonLookup
  import opened MergePatches

  /** `compare_json`. */
  method CompareTrees(a: Json, b: Json, cs: bool) returns (same: bool)
    ensures same == CompareJson(a, b, cs)
    decreases Nesting(a), 0
  {
    hide CompareDouble, SortMembers, CompareKeys;
    if a.Array? && b.Array? {
      same := CompareItemLists(a.items, b.items, cs);
    } else if a.Object? && b.Object? {
      same := CompareMemberLists(SortMembers(a.members, cs), SortMembers(b.members, cs), cs);
    } else if a.Number? && b.Number? {
      same := a.valueInt == b.valueInt && CompareDouble(a.valueDouble, b.valueDouble);
    } else {
      same := (a.Str? || a.Bool? || a.Null?) && a == b;
    }
  }

  method CompareItemLists(a: seq<Json>, b: seq<Json>, cs: bool) returns (same: bool)
    ensures same == CompareItems(a, b, cs)
    decreases NestingItems(a), 1
  {
    hide CompareJson, Nesting;
    var i := 0;
    assert a[0..] == a && b[0..] == b;
    while i < |a| && i < |b|
      invariant i <= |a| && i <= |b|
      invariant CompareItems(a[i..], b[i..], cs) == CompareItems(a, b, cs)
      invariant NestingItems(a[i..]) <= NestingItems(a)
    {
      assert a[i..][1..] == a[i + 1..] && b[i..][1..] == b[i + 1..];
      var identical := CompareTrees(a[i], b[i], cs);
      if !identical {
        return false;
      }
      i := i + 1;
    }
    same := i == |a| && i == |b|;
  }

  method CompareMemberLists(a: seq<Member>, b: seq<Member>, cs: bool) returns (same: bool)
    ensures same == CompareMembers(a, b, cs)
    decreases NestingMembers(a), 1
  {
    hide CompareJson, Nesting, CompareKeys;
    var i := 0;
    assert a[0..] == a && b[0..] == b;
    while i < |a| && i < |b|
      invariant i <= |a| && i <= |b|
      invariant CompareMembers(a[i..], b[i..], cs) == CompareMembers(a, b, cs)
      invariant NestingMembers(a[i..]) <= NestingMembers(a)
    {
      assert a[i..][1..] == a[i + 1..] && b[i..][1..] == b[i + 1..];
      if CompareKeys(a[i].key, b[i].key, cs) != 0 {
        return false;
      }
      var identical := CompareTrees(a[i].value, b[i].value, cs);
      if !identical {
        return false;
      }
      i := i + 1;
    }
    same := i == |a| && i == |b|;
  }

  /** `merge_patch`. */
  method ApplyMergePatch(target: Option<Json>, patch: Json, cs: bool) returns (r: Json)
    ensures r == MergePatch(target, patch, cs)
    decreases patch
  {
    hide Get, Without;
    if !patch.Object? {
      return patch;
    }
    var ps := patch.members;
    var ms := MembersOf(target);
    var i := 0;
    assert ps[0..] == ps;
    while i < |ps|
      invariant i <= |ps| && MergeMembers(ms, ps[i..], cs) == MergeMembers(MembersOf(target), ps, cs)
    {
      var p := ps[i];
      assert ps[i..][0] == p && ps[i..][1..] == ps[i + 1..];
      if p.value.Null? {
        ms := Without(ms, p.key, cs);
      } else {
        var replaceMe := Get(ms, p.key, cs);
        ms := Without(ms, p.key, cs);
        var replacement := ApplyMergePatch(replaceMe, p.value, cs);
        ms := ms + [Member(p.key, replacement)];
      }
      i := i + 1;
    }
    r := Object(ms);
  }

  /** `generate_merge_patch`. */
  method GenerateMergePatch(from: Json, to: Json, cs: bool) returns (patch: Option<Json>)
    ensures patch == Generate(from, to, cs)
    decreases Nesting(from), 0
  {
    hide SortMembers, GenerateMembers;
    if !to.Object? || !from.Object? {
      return Some(to);
    }
    var ps := PatchLists(SortMembers(from.members, cs), SortMembers(to.members, cs), cs);
    patch := if ps == [] then None else Some(Object(ps));
  }

  method PatchLists(from: seq<Member>, to: seq<Member>, cs: bool) returns (ps: seq<Member>)
    ensures ps == GenerateMembers(from, to, cs)
    decreases NestingMembers(from), 1
  {
    hide CompareJson, Generate, Nesting, Compare, GenerateMembers;
    ps := [];
    var i, j := 0, 0;
    assert from[0..] == from && to[0..] == to;
    while i < |from| || j < |to|
      invariant i <= |from| && j <= |to|
      invariant ps + GenerateMembers(from[i..], to[j..], cs) == GenerateMembers(from, to, cs)
      invariant NestingMembers(from[i..]) <= NestingMembers(from)
      decreases |from| + |to| - i - j
    {
      assert i < |from| ==> from[i..][1..] == from[i + 1..];
      ListsMore(from, i, to, j, cs, ps);
      var diff := if i == |from| then 1 else if j == |to| then -1 else Compare(from[i].key, to[j].key);
      if diff < 0 {
        ps := ps + [Member(from[i].key, Null)];
        i := i + 1;
      } else if diff > 0 {
        ps := ps + [Member(to[j].key, to[j].value)];
        j := j + 1;
      } else {
        var same := CompareTrees(from[i].value, to[j].value, cs);
        if !same {
          var patch := GenerateMergePatch(from[i].value, to[j].value, false);
          if patch.Some? {
            ps := ps + [Member(to[j].key, patch.value)];
          }
        }
        i, j := i + 1, j + 1;
      }
    }
    ListsEnd(cs);
    assert from[i..] == [] && to[j..] == [] && ps + [] == ps;
  }

  lemma ListsEnd(cs: bool)
    ensures GenerateMembers([], [], cs) == []
  {
  }

  /** What one turn leaves to be done. */
  lemma ListsMore(from: seq<Member>, i: nat, to: seq<Member>, j: nat, cs: bool, ps: seq<Member>)
    requires i <= |from| && j <= |to| && (i < |from| || j < |to|)
    ensures var diff := if i == |from| then 1 else if j == |to| then -1 else Compare(from[i].key, to[j].key);
            ps + GenerateMembers(from[i..], to[j..], cs) ==
            if diff < 0 then ps + [Member(from[i].key, Null)] + GenerateMembers(from[i + 1..], to[j..], cs)
            else if diff > 0 then ps + [Member(to[j].key, to[j].value)] + GenerateMembers(from[i..], to[j + 1..], cs)
            else
              var rest := GenerateMembers(from[i + 1..], to[j + 1..], cs);
              if CompareJson(from[i].value, to[j].value, cs) then ps + rest
              else
                var patch := Generate(from[i].value, to[j].value, false);
                if patch == None then ps + rest else ps + [Member(to[j].key, patch.value)] + rest
  {
    hide CompareJson, Generate, Compare;
    assert i < |from| ==> from[i..][1..] == from[i + 1..];
    assert j < |to| ==> to[j..][1..] == to[j + 1..];
  }
}
