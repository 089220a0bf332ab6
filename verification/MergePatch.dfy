/**
 JSON Merge Patch (RFC 7396) as cJSON_Utils.c implements it: comparing two trees, generating the
 patch that leads from one to the other, and applying a patch.
 */
module MergePatches {
  import opened Wrappers
  import opened CStrings
  import opened CJson
  import opened CJsonLookup
  import opened MergeSorts

  // ---------------------------------------------------------------- sorted members

  function KeyOfMember(m: Member): string {
    m.key
  }

  /** `sort_object`. */
  function SortMembers(ms: seq<Member>, cs: bool): (r: seq<Member>)
    ensures multiset(r) == multiset(ms)
    ensures NestingMembers(r) <= NestingMembers(ms)
  {
    var r := MergeSort(ms, KeyOfMember, cs);
    MergeSortSorts(ms, KeyOfMember, cs);
    NestingPermuted(ms, r);
    r
  }

  lemma {:induction false} NestingOfMember(ms: seq<Member>, m: Member)
    requires m in ms
    ensures Nesting(m.value) <= NestingMembers(ms)
  {
    hide Nesting;
    if m != ms[0] {
      NestingOfMember(ms[1..], m);
    }
  }

  lemma {:induction false} NestingBound(ms: seq<Member>, n: nat)
    requires forall m :: m in ms ==> Nesting(m.value) <= n
    ensures NestingMembers(ms) <= n
  {
    hide Nesting;
    if ms != [] {
      NestingBound(ms[1..], n);
    }
  }

  lemma NestingPermuted(ms: seq<Member>, r: seq<Member>)
    requires multiset(r) == multiset(ms)
    ensures NestingMembers(r) <= NestingMembers(ms)
  {
    hide Nesting, NestingMembers;
    forall m | m in r
      ensures Nesting(m.value) <= NestingMembers(ms)
    {
      assert m in multiset(r);
      NestingOfMember(ms, m);
    }
    NestingBound(r, NestingMembers(ms));
  }

  // ---------------------------------------------------------------- comparing

  const DBL_EPSILON: real := 1.0 / 4503599627370496.0

  function Abs(x: real): real {
    if x < 0.0 then -x else x
  }

  /** `compare_double`. */
  predicate CompareDouble(a: real, b: real) {
    var m := if Abs(a) > Abs(b) then Abs(a) else Abs(b);
    Abs(a - b) <= m * DBL_EPSILON
  }

  /** `compare_json`. */
  predicate CompareJson(a: Json, b: Json, cs: bool)
    decreases Nesting(a), 0
  {
    match a
    case Null => b.Null?
    case Bool(x) => b == Bool(x)
    case Number(n, x) => b.Number? && n == b.valueInt && CompareDouble(x, b.valueDouble)
    case Str(s) => b == Str(s)
    case Array(items) => b.Array? && CompareItems(items, b.items, cs)
    case Object(ms) => b.Object? && CompareMembers(SortMembers(ms, cs), SortMembers(b.members, cs), cs)
  }

  predicate CompareItems(a: seq<Json>, b: seq<Json>, cs: bool)
    decreases NestingItems(a), |a|
  {
    if a == [] || b == [] then a == [] && b == []
    else CompareJson(a[0], b[0], cs) && CompareItems(a[1..], b[1..], cs)
  }

  predicate CompareMembers(a: seq<Member>, b: seq<Member>, cs: bool)
    decreases NestingMembers(a), |a|
  {
    if a == [] || b == [] then a == [] && b == []
    else
      && CompareKeys(a[0].key, b[0].key, cs) == 0
      && CompareJson(a[0].value, b[0].value, cs)
      && CompareMembers(a[1..], b[1..], cs)
  }

  // ---------------------------------------------------------------- generating

  /** `generate_merge_patch` of two trees; None is its NULL. Below the top it ignores letter
      case, whatever it was asked for. */
  function Generate(from: Json, to: Json, cs: bool): Option<Json>
    decreases Nesting(from), 0
  {
    if !to.Object? || !from.Object? then Some(to)
    else
      var patch := GenerateMembers(SortMembers(from.members, cs), SortMembers(to.members, cs), cs);
      if patch == [] then None else Some(Object(patch))
  }

  /** Its loop over the two sorted lists. */
  function GenerateMembers(from: seq<Member>, to: seq<Member>, cs: bool): seq<Member>
    decreases NestingMembers(from), |from| + |to|
  {
    if from == [] && to == [] then []
    else
      var diff := if from == [] then 1 else if to == [] then -1 else Compare(from[0].key, to[0].key);
      if diff < 0 then [Member(from[0].key, Null)] + GenerateMembers(from[1..], to, cs)
      else if diff > 0 then [Member(to[0].key, to[0].value)] + GenerateMembers(from, to[1..], cs)
      else
        var rest := GenerateMembers(from[1..], to[1..], cs);
        if CompareJson(from[0].value, to[0].value, cs) then rest
        else
          var patch := Generate(from[0].value, to[0].value, false);
          if patch == None then rest else [Member(to[0].key, patch.value)] + rest
  }

  // ---------------------------------------------------------------- applying

  function MembersOf(v: Option<Json>): seq<Member> {
    if v.Some? && v.value.Object? then v.value.members else []
  }

  /** `merge_patch`; the target is None where it is NULL. */
  function MergePatch(target: Option<Json>, patch: Json, cs: bool): Json
    decreases patch, 0
  {
    if patch.Object? then Object(MergeMembers(MembersOf(target), patch.members, cs)) else patch
  }

  function MergeMembers(ms: seq<Member>, ps: seq<Member>, cs: bool): seq<Member>
    decreases ps
  {
    if ps == [] then ms else MergeMembers(MergeMember(ms, ps[0], cs), ps[1..], cs)
  }

  /** One turn of its loop. */
  function MergeMember(ms: seq<Member>, p: Member, cs: bool): seq<Member>
    decreases p, 1
  {
    if p.value.Null? then Without(ms, p.key, cs)
    else Without(ms, p.key, cs) + [Member(p.key, MergePatch(Get(ms, p.key, cs), p.value, cs))]
  }

  // ---------------------------------------------------------------- members as a map

  ghost predicate DistinctKeys(ms: seq<Member>) {
    forall i, j :: 0 <= i < j < |ms| ==> ms[i].key != ms[j].key
  }

  ghost predicate KeysIn(ms: seq<Member>, ks: set<string>) {
    forall i :: 0 <= i < |ms| ==> ms[i].key in ks
  }

  /** Keys on which both ways of comparing agree, as they do without upper-case letters. */
  ghost predicate Agree(ks: set<string>) {
    forall a, b :: a in ks && b in ks ==> CompareKeys(a, b, false) == Compare(a, b)
  }

  /** Keys that are compared by their own order: any keys with regard to case, agreeing keys
      without. */
  ghost predicate Orders(cs: bool, ks: set<string>) {
    cs || Agree(ks)
  }

  function Value(ms: seq<Member>, k: string): Option<Json> {
    Get(ms, k, true)
  }

  lemma FoldApart(a: string, b: string, cs: bool, ks: set<string>)
    requires Orders(cs, ks) && a in ks && b in ks
    ensures Fold(a, cs) == Fold(b, cs) <==> a == b
    ensures CompareKeys(a, b, cs) == Compare(a, b)
  {
    assert !cs ==> CompareKeys(a, b, false) == Compare(a, b);
  }

  lemma {:induction false} SameIndex(ms: seq<Member>, k: string, cs: bool, ks: set<string>)
    requires Orders(cs, ks) && KeysIn(ms, ks) && k in ks
    ensures MemberIndex(ms, k, cs) == MemberIndex(ms, k, true)
  {
    hide Fold;
    if ms != [] {
      FoldApart(ms[0].key, k, cs, ks);
      FoldApart(ms[0].key, k, true, ks);
      SameIndex(ms[1..], k, cs, ks);
    }
  }

  /** Where a key is, and where it is not. */
  lemma ValueIs(ms: seq<Member>, k: string)
    ensures Value(ms, k).None? ==> forall i :: 0 <= i < |ms| ==> ms[i].key != k
    ensures Value(ms, k).Some? ==> exists i :: 0 <= i < |ms| && ms[i] == Member(k, Value(ms, k).value)
  {
    var i := MemberIndex(ms, k, true);
    if i < |ms| {
      assert ms[i] == Member(k, ms[i].value);
    }
  }

  lemma ValueAt(ms: seq<Member>, i: nat)
    requires DistinctKeys(ms) && i < |ms|
    ensures Value(ms, ms[i].key) == Some(ms[i].value)
  {
    ValueIs(ms, ms[i].key);
  }

  lemma ValueCons(m: Member, s: seq<Member>, k: string)
    ensures Value([m] + s, k) == if m.key == k then Some(m.value) else Value(s, k)
  {
    assert ([m] + s)[1..] == s;
  }

  lemma {:induction false} ValueSnoc(s: seq<Member>, m: Member, k: string)
    ensures Value(s + [m], k) == if Value(s, k).Some? then Value(s, k) else if m.key == k then Some(m.value) else None
  {
    if s == [] {
      ValueCons(m, [], k);
      assert s + [m] == [m] + [];
    } else {
      ValueSnoc(s[1..], m, k);
      ValueCons(s[0], s[1..] + [m], k);
      ValueCons(s[0], s[1..], k);
      assert s + [m] == [s[0]] + (s[1..] + [m]);
      assert s == [s[0]] + s[1..];
    }
  }

  lemma WithoutKeeps(ms: seq<Member>, name: string)
    requires DistinctKeys(ms)
    ensures var w := Without(ms, name, true);
            && DistinctKeys(w)
            && (forall i :: 0 <= i < |w| ==> w[i].key != name && w[i] in ms)
  {
    var i := MemberIndex(ms, name, true);
    assert i < |ms| ==> ms[i].key == name;
  }

  lemma WithoutValue(ms: seq<Member>, name: string, k: string)
    requires DistinctKeys(ms)
    ensures Value(Without(ms, name, true), k) == if k == name then None else Value(ms, k)
  {
    hide Get, MemberIndex, Value, Without;
    var w := Without(ms, name, true);
    WithoutKeeps(ms, name);
    ValueIs(w, k);
    ValueIs(ms, k);
    if k != name && Value(ms, k).Some? {
      var j :| 0 <= j < |ms| && ms[j] == Member(k, Value(ms, k).value);
      WithoutKeepsOther(ms, name, j);
      var l :| 0 <= l < |w| && w[l] == ms[j];
      ValueAt(w, l);
    }
  }

  lemma WithoutKeepsOther(ms: seq<Member>, name: string, j: nat)
    requires DistinctKeys(ms) && j < |ms| && ms[j].key != name
    ensures var w := Without(ms, name, true); exists l :: 0 <= l < |w| && w[l] == ms[j]
  {
    var i := MemberIndex(ms, name, true);
    var w := Without(ms, name, true);
    assert w[if j < i then j else j - 1] == ms[j];
  }

  // ---------------------------------------------------------------- what applying does

  /** Section 2 of RFC 7396: a member of the patch replaces, removes or is merged; the others
      stay. */
  function Merged(target: Option<Json>, patch: Option<Json>, cs: bool): Option<Json> {
    if patch.None? then target
    else if patch.value.Null? then None
    else Some(MergePatch(target, patch.value, cs))
  }

  lemma ExactLookup(ms: seq<Member>, k: string, cs: bool, ks: set<string>)
    requires Orders(cs, ks) && KeysIn(ms, ks) && k in ks
    ensures Get(ms, k, cs) == Value(ms, k) && Without(ms, k, cs) == Without(ms, k, true)
  {
    hide MemberIndex;
    SameIndex(ms, k, cs, ks);
  }

  lemma MergeMemberValue(ms: seq<Member>, p: Member, cs: bool, ks: set<string>, k: string)
    requires Orders(cs, ks) && DistinctKeys(ms) && KeysIn(ms, ks) && p.key in ks
    ensures Value(MergeMember(ms, p, cs), k) ==
            if k == p.key then Merged(Value(ms, k), Some(p.value), cs) else Value(ms, k)
    ensures DistinctKeys(MergeMember(ms, p, cs)) && KeysIn(MergeMember(ms, p, cs), ks)
  {
    hide MergePatch, Get, Without, Value;
    ExactLookup(ms, p.key, cs, ks);
    var w := Without(ms, p.key, true);
    WithoutKeeps(ms, p.key);
    WithoutValue(ms, p.key, k);
    if !p.value.Null? {
      ValueSnoc(w, Member(p.key, MergePatch(Value(ms, p.key), p.value, cs)), k);
      WithoutValue(ms, p.key, p.key);
    }
  }

  lemma {:induction false} MergeMembersValue(ms: seq<Member>, ps: seq<Member>, cs: bool, ks: set<string>, k: string)
    requires Orders(cs, ks) && DistinctKeys(ms) && KeysIn(ms, ks) && DistinctKeys(ps) && KeysIn(ps, ks)
    ensures var r := MergeMembers(ms, ps, cs);
            && Value(r, k) == Merged(Value(ms, k), Value(ps, k), cs)
            && DistinctKeys(r) && KeysIn(r, ks)
    decreases |ps|
  {
    hide MergePatch, MergeMember, Get, Value;
    if ps == [] {
      ValueIs(ps, k);
    } else {
      MergeMemberValue(ms, ps[0], cs, ks, k);
      MergeMembersValue(MergeMember(ms, ps[0], cs), ps[1..], cs, ks, k);
      ValueCons(ps[0], ps[1..], k);
      assert ps == [ps[0]] + ps[1..];
      if k == ps[0].key {
        ValueIs(ps[1..], k);
      }
    }
  }

  // ---------------------------------------------------------------- what sorting does

  lemma {:induction false} OnlyOnce(ms: seq<Member>, m: Member)
    requires DistinctKeys(ms)
    ensures multiset(ms)[m] <= 1
  {
    if ms != [] {
      OnlyOnce(ms[1..], m);
      assert ms == [ms[0]] + ms[1..];
      if ms[0] == m {
        assert m !in ms[1..];
      }
    }
  }

  lemma Twice(r: seq<Member>, i: nat, j: nat)
    requires i < j < |r| && r[i] == r[j]
    ensures multiset(r)[r[i]] >= 2
  {
    assert r == r[..i] + [r[i]] + r[i + 1..j] + [r[j]] + r[j + 1..];
  }

  lemma DistinctPermuted(ms: seq<Member>, r: seq<Member>)
    requires DistinctKeys(ms) && multiset(r) == multiset(ms)
    ensures DistinctKeys(r) && forall i :: 0 <= i < |r| ==> r[i] in ms
  {
    forall i | 0 <= i < |r|
      ensures r[i] in ms
    {
      assert r[i] in multiset(r);
    }
    forall i, j | 0 <= i < j < |r|
      ensures r[i].key != r[j].key
    {
      if r[i].key == r[j].key {
        assert r[i] in ms && r[j] in ms;
        Twice(r, i, j);
        OnlyOnce(ms, r[i]);
      }
    }
  }

  lemma ValuePermuted(ms: seq<Member>, r: seq<Member>, k: string)
    requires DistinctKeys(ms) && DistinctKeys(r) && multiset(r) == multiset(ms)
    ensures Value(r, k) == Value(ms, k)
  {
    hide Get, Value;
    ValueIs(ms, k);
    ValueIs(r, k);
    if Value(ms, k).Some? {
      var i :| 0 <= i < |ms| && ms[i] == Member(k, Value(ms, k).value);
      assert ms[i] in multiset(ms);
      var j :| 0 <= j < |r| && r[j] == ms[i];
      ValueAt(r, j);
    } else {
      forall j | 0 <= j < |r|
        ensures r[j].key != k
      {
        assert r[j] in multiset(r);
      }
    }
  }

  /** Keys in the order of `strcmp`, none twice. */
  ghost predicate Ascending(ms: seq<Member>) {
    forall i, j :: 0 <= i < j < |ms| ==> Compare(ms[i].key, ms[j].key) < 0
  }

  lemma SortAscending(ms: seq<Member>, cs: bool, ks: set<string>)
    requires Orders(cs, ks) && DistinctKeys(ms) && KeysIn(ms, ks)
    ensures Ascending(SortMembers(ms, cs)) && KeysIn(SortMembers(ms, cs), ks)
  {
    var r := SortMembers(ms, cs);
    DistinctPermuted(ms, r);
    MergeSortSorts(ms, KeyOfMember, cs);
    forall i, j | 0 <= i < j < |r|
      ensures Compare(r[i].key, r[j].key) < 0
    {
      FoldApart(r[i].key, r[j].key, cs, ks);
      assert CompareKeys(KeyOfMember(r[i]), KeyOfMember(r[j]), cs) <= 0;
    }
  }

  /** The sorted members are the same map. */
  lemma SortValue(ms: seq<Member>, cs: bool, k: string)
    requires DistinctKeys(ms)
    ensures Value(SortMembers(ms, cs), k) == Value(ms, k)
  {
    hide SortMembers;
    DistinctPermuted(ms, SortMembers(ms, cs));
    ValuePermuted(ms, SortMembers(ms, cs), k);
  }

  // ---------------------------------------------------------------- what generating does

  /** What the patch says of a key, from the two values it has. */
  function Difference(from: Option<Json>, to: Option<Json>, cs: bool): Option<Json> {
    if from.None? then to
    else if to.None? then Some(Null)
    else if CompareJson(from.value, to.value, cs) then None
    else Generate(from.value, to.value, false)
  }

  lemma NotAbove(ms: seq<Member>, k: string)
    requires Ascending(ms) && (ms == [] || Compare(k, ms[0].key) < 0)
    ensures Value(ms, k) == None
  {
    forall i | 0 <= i < |ms|
      ensures ms[i].key != k
    {
      CompareFlips(k, ms[0].key);
      assert i > 0 ==> Compare(ms[0].key, ms[i].key) < 0;
    }
    ValueIs(ms, k);
  }

  lemma NotInTail(ms: seq<Member>)
    requires Ascending(ms) && ms != []
    ensures Value(ms[1..], ms[0].key) == None
    ensures forall k :: Value(ms, k) == if k == ms[0].key then Some(ms[0].value) else Value(ms[1..], k)
  {
    assert |ms| > 1 ==> Compare(ms[0].key, ms[1].key) < 0;
    NotAbove(ms[1..], ms[0].key);
    forall k
      ensures Value(ms, k) == if k == ms[0].key then Some(ms[0].value) else Value(ms[1..], k)
    {
      ValueCons(ms[0], ms[1..], k);
      assert ms == [ms[0]] + ms[1..];
    }
  }

  /** The loop over two sorted lists compares them as maps. */
  lemma {:induction false} GenerateMembersValue(from: seq<Member>, to: seq<Member>, cs: bool, k: string)
    requires Ascending(from) && Ascending(to)
    ensures Value(GenerateMembers(from, to, cs), k) == Difference(Value(from, k), Value(to, k), cs)
    decreases |from| + |to|
  {
    hide Value, Generate, CompareJson, Compare, Ascending;
    if from == [] && to == [] {
      ValueIs([], k);
    } else {
      var diff := if from == [] then 1 else if to == [] then -1 else Compare(from[0].key, to[0].key);
      AscendingTail(from);
      AscendingTail(to);
      if from != [] {
        NotInTail(from);
      }
      if to != [] {
        NotInTail(to);
      }
      if diff < 0 {
        NotAbove(to, from[0].key);
        GenerateMembersValue(from[1..], to, cs, k);
        ValueCons(Member(from[0].key, Null), GenerateMembers(from[1..], to, cs), k);
      } else if diff > 0 {
        if from != [] {
          CompareFlips(from[0].key, to[0].key);
        }
        NotAbove(from, to[0].key);
        GenerateMembersValue(from, to[1..], cs, k);
        ValueCons(to[0], GenerateMembers(from, to[1..], cs), k);
      } else {
        var rest := GenerateMembers(from[1..], to[1..], cs);
        GenerateMembersValue(from[1..], to[1..], cs, k);
        if !CompareJson(from[0].value, to[0].value, cs) {
          var patch := Generate(from[0].value, to[0].value, false);
          if patch.Some? {
            ValueCons(Member(to[0].key, patch.value), rest, k);
          }
        }
      }
    }
  }

  lemma AscendingTail(ms: seq<Member>)
    requires Ascending(ms)
    ensures ms != [] ==> Ascending(ms[1..])
  {
  }

  lemma HeadApart(m: Member, rest: seq<Member>, ks: set<string>)
    requires Value(rest, m.key) == None && DistinctKeys(rest) && KeysIn(rest, ks) && m.key in ks
    ensures DistinctKeys([m] + rest) && KeysIn([m] + rest, ks)
  {
    ValueIs(rest, m.key);
  }

  lemma {:induction false} GenerateMembersDistinct(from: seq<Member>, to: seq<Member>, cs: bool, ks: set<string>)
    requires Ascending(from) && Ascending(to) && KeysIn(from, ks) && KeysIn(to, ks)
    ensures DistinctKeys(GenerateMembers(from, to, cs)) && KeysIn(GenerateMembers(from, to, cs), ks)
    decreases |from| + |to|
  {
    hide Value, Generate, CompareJson, Compare, Ascending, DistinctKeys;
    AscendingTail(from);
    AscendingTail(to);
    if from != [] {
      NotInTail(from);
    }
    if to != [] {
      NotInTail(to);
    }
    if from == [] && to == [] {
      Nothing(ks);
    } else {
      var diff := if from == [] then 1 else if to == [] then -1 else Compare(from[0].key, to[0].key);
      if diff < 0 {
        NotAbove(to, from[0].key);
        GenerateMembersDistinct(from[1..], to, cs, ks);
        GenerateMembersValue(from[1..], to, cs, from[0].key);
        HeadApart(Member(from[0].key, Null), GenerateMembers(from[1..], to, cs), ks);
      } else if diff > 0 {
        if from != [] {
          CompareFlips(from[0].key, to[0].key);
        }
        NotAbove(from, to[0].key);
        GenerateMembersDistinct(from, to[1..], cs, ks);
        GenerateMembersValue(from, to[1..], cs, to[0].key);
        HeadApart(to[0], GenerateMembers(from, to[1..], cs), ks);
      } else {
        GenerateMembersDistinct(from[1..], to[1..], cs, ks);
        GenerateMembersValue(from[1..], to[1..], cs, to[0].key);
        var patch := Generate(from[0].value, to[0].value, false);
        if patch.Some? {
          HeadApart(Member(to[0].key, patch.value), GenerateMembers(from[1..], to[1..], cs), ks);
        }
      }
    }
  }

  lemma Nothing(ks: set<string>)
    ensures DistinctKeys([]) && KeysIn([], ks)
  {
  }

  // ---------------------------------------------------------------- trees up to member order

  /** The trees covered: whole numbers, and in each object keys of `ks`, none twice. */
  ghost predicate Good(v: Json, ks: set<string>) {
    match v
    case Number(n, x) => x == n as real
    case Array(items) => forall i :: 0 <= i < |items| ==> Good(items[i], ks)
    case Object(ms) => DistinctKeys(ms) && KeysIn(ms, ks) && forall i :: 0 <= i < |ms| ==> Good(ms[i].value, ks)
    case _ => true
  }

  /** Equality up to the order of members. */
  predicate Same(a: Json, b: Json) {
    match a
    case Array(items) =>
      && b.Array? && |items| == |b.items|
      && forall i :: 0 <= i < |items| ==> Same(items[i], b.items[i])
    case Object(ms) =>
      && b.Object?
      && (forall i :: 0 <= i < |ms| ==>
            var other := Value(b.members, ms[i].key);
            other.Some? && Same(ms[i].value, other.value))
      && (forall j :: 0 <= j < |b.members| ==> Value(ms, b.members[j].key).Some?)
    case _ => a == b
  }

  predicate SameOption(a: Option<Json>, b: Option<Json>) {
    if a.Some? && b.Some? then Same(a.value, b.value) else a == b
  }

  ghost predicate SameMap(a: seq<Member>, b: seq<Member>) {
    forall k :: SameOption(Value(a, k), Value(b, k))
  }

  lemma SameObject(a: seq<Member>, b: seq<Member>)
    requires DistinctKeys(a) && DistinctKeys(b)
    ensures Same(Object(a), Object(b)) <==> SameMap(a, b)
  {
    hide Value, DistinctKeys;
    forall k
      ensures Same(Object(a), Object(b)) ==> SameOption(Value(a, k), Value(b, k))
    {
      ValueIs(a, k);
      ValueIs(b, k);
    }
    if SameMap(a, b) {
      forall i | 0 <= i < |a|
        ensures var other := Value(b, a[i].key); other.Some? && Same(a[i].value, other.value)
      {
        ValueAt(a, i);
        assert SameOption(Value(a, a[i].key), Value(b, a[i].key));
      }
      forall j | 0 <= j < |b|
        ensures Value(a, b[j].key).Some?
      {
        ValueAt(b, j);
        assert SameOption(Value(a, b[j].key), Value(b, b[j].key));
      }
    }
  }

  // ---------------------------------------------------------------- what comparing decides

  lemma WholeNumbers(x: real)
    ensures CompareDouble(x, x)
  {
  }

  /** `compare_json` decides equality up to the order of members. */
  lemma {:induction false} CompareIsSame(a: Json, b: Json, cs: bool, ks: set<string>)
    requires Orders(cs, ks) && Good(a, ks) && Good(b, ks)
    ensures CompareJson(a, b, cs) <==> Same(a, b)
    decreases Nesting(a), 0
  {
    hide CompareDouble, Orders, CompareItems, CompareMembers, SortMembers;
    match a
    case Null =>
    case Bool(_) =>
    case Number(n, x) => WholeNumbers(x);
    case Str(_) =>
    case Array(items) =>
      if b.Array? {
        ItemsCompareSame(items, b.items, cs, ks);
      }
    case Object(ms) =>
      if b.Object? {
        GoodSorted(ms, cs, ks);
        GoodSorted(b.members, cs, ks);
        MembersCompareSame(SortMembers(ms, cs), SortMembers(b.members, cs), cs, ks);
        SortedSameMap(ms, b.members, cs, ks);
        SameObject(ms, b.members);
      }
  }

  lemma {:induction false} ItemsCompareSame(a: seq<Json>, b: seq<Json>, cs: bool, ks: set<string>)
    requires Orders(cs, ks) && Good(Array(a), ks) && Good(Array(b), ks)
    ensures CompareItems(a, b, cs) <==> Same(Array(a), Array(b))
    decreases NestingItems(a), |a| + 1
  {
    hide CompareJson, Orders;
    if a != [] && b != [] {
      CompareIsSame(a[0], b[0], cs, ks);
      ItemsCompareSame(a[1..], b[1..], cs, ks);
      assert a == [a[0]] + a[1..] && b == [b[0]] + b[1..];
    }
  }

  ghost predicate GoodMembers(ms: seq<Member>, ks: set<string>) {
    Ascending(ms) && KeysIn(ms, ks) && forall i :: 0 <= i < |ms| ==> Good(ms[i].value, ks)
  }

  lemma GoodSorted(ms: seq<Member>, cs: bool, ks: set<string>)
    requires Orders(cs, ks) && Good(Object(ms), ks)
    ensures GoodMembers(SortMembers(ms, cs), ks)
  {
    var r := SortMembers(ms, cs);
    SortAscending(ms, cs, ks);
    forall i | 0 <= i < |r|
      ensures Good(r[i].value, ks)
    {
      assert r[i] in multiset(r);
      assert r[i] in ms;
    }
  }

  lemma SortedSameMap(a: seq<Member>, b: seq<Member>, cs: bool, ks: set<string>)
    requires Orders(cs, ks) && Good(Object(a), ks) && Good(Object(b), ks)
    ensures SameMap(SortMembers(a, cs), SortMembers(b, cs)) <==> SameMap(a, b)
  {
    hide Value, SortMembers, SameOption, Orders;
    var sa, sb := SortMembers(a, cs), SortMembers(b, cs);
    forall k
      ensures SameOption(Value(sa, k), Value(sb, k)) == SameOption(Value(a, k), Value(b, k))
    {
      SortValue(a, cs, k);
      SortValue(b, cs, k);
    }
  }

  lemma {:induction false} MembersCompareSame(a: seq<Member>, b: seq<Member>, cs: bool, ks: set<string>)
    requires Orders(cs, ks) && GoodMembers(a, ks) && GoodMembers(b, ks)
    ensures CompareMembers(a, b, cs) <==> SameMap(a, b)
    decreases NestingMembers(a), |a| + 1
  {
    hide Value, CompareJson, Compare, Ascending, Orders, Same;
    if a != [] && b != [] {
      FoldApart(a[0].key, b[0].key, cs, ks);
      AscendingTail(a);
      AscendingTail(b);
      NotInTail(a);
      NotInTail(b);
      if a[0].key == b[0].key {
        CompareIsSame(a[0].value, b[0].value, cs, ks);
        MembersCompareSame(a[1..], b[1..], cs, ks);
        HeadsSame(a, b);
      } else {
        CompareFlips(a[0].key, b[0].key);
        if Compare(a[0].key, b[0].key) < 0 {
          NotAbove(b, a[0].key);
          assert !SameOption(Value(a, a[0].key), Value(b, a[0].key));
        } else {
          NotAbove(a, b[0].key);
          assert !SameOption(Value(a, b[0].key), Value(b, b[0].key));
        }
      }
    } else if a != [] {
      NotInTail(a);
      ValueIs(b, a[0].key);
      assert !SameOption(Value(a, a[0].key), Value(b, a[0].key));
    } else if b != [] {
      NotInTail(b);
      ValueIs(a, b[0].key);
      assert !SameOption(Value(a, b[0].key), Value(b, b[0].key));
    } else {
      forall k
        ensures SameOption(Value(a, k), Value(b, k))
      {
        ValueIs(a, k);
      }
    }
  }

  lemma HeadsSame(a: seq<Member>, b: seq<Member>)
    requires a != [] && b != [] && Ascending(a) && Ascending(b) && a[0].key == b[0].key
    ensures SameMap(a, b) <==> Same(a[0].value, b[0].value) && SameMap(a[1..], b[1..])
  {
    hide Value, Ascending, Same;
    NotInTail(a);
    NotInTail(b);
    var key := a[0].key;
    assert SameOption(Value(a, key), Value(b, key)) == Same(a[0].value, b[0].value);
    assert SameOption(Value(a[1..], key), Value(b[1..], key));
    forall k | k != key
      ensures SameOption(Value(a, k), Value(b, k)) == SameOption(Value(a[1..], k), Value(b[1..], k))
    {
    }
  }

  // ---------------------------------------------------------------- the round trip

  /** Each null member of `to`, reached through objects, is null in `from` as well. In a patch a
      null means removal, so no other null can be brought about. */
  predicate NullsKept(from: Option<Json>, to: Json)
    decreases (to)
  {
    to.Object? ==>
      forall i :: 0 <= i < |to.members| ==>
        var m := to.members[i];
        var was := Value(MembersOf(from), m.key);
        (m.value.Null? ==> was == Some(Null)) && NullsKept(was, m.value)
  }

  predicate KeptAt(from: Option<Json>, to: Option<Json>) {
    to.Some? ==> (to.value.Null? ==> from == Some(Null)) && NullsKept(from, to.value)
  }

  lemma NullsKeptByKey(from: Option<Json>, to: seq<Member>)
    requires DistinctKeys(to)
    ensures NullsKept(from, Object(to)) <==> forall k :: KeptAt(Value(MembersOf(from), k), Value(to, k))
  {
    hide Value, DistinctKeys;
    forall k
      ensures NullsKept(from, Object(to)) ==> KeptAt(Value(MembersOf(from), k), Value(to, k))
    {
      ValueIs(to, k);
    }
    if forall k :: KeptAt(Value(MembersOf(from), k), Value(to, k)) {
      forall i | 0 <= i < |to|
        ensures var was := Value(MembersOf(from), to[i].key);
                (to[i].value.Null? ==> was == Some(Null)) && NullsKept(was, to[i].value)
      {
        ValueAt(to, i);
        assert KeptAt(Value(MembersOf(from), to[i].key), Value(to, to[i].key));
      }
    }
  }

  lemma ValueGood(ms: seq<Member>, k: string, ks: set<string>)
    requires Good(Object(ms), ks)
    ensures var v := Value(ms, k); v.Some? ==> Good(v.value, ks) && Nesting(v.value) <= NestingMembers(ms)
  {
    hide Value, Nesting, NestingMembers;
    ValueIs(ms, k);
    var v := Value(ms, k);
    if v.Some? {
      var i :| 0 <= i < |ms| && ms[i] == Member(k, v.value);
      NestingOfMember(ms, ms[i]);
    }
  }

  lemma {:induction false} SameSelf(v: Json, ks: set<string>)
    requires Good(v, ks)
    ensures Same(v, v)
    decreases v
  {
    hide Value;
    match v
    case Array(items) =>
      forall i | 0 <= i < |items|
        ensures Same(items[i], items[i])
      {
        SameSelf(items[i], ks);
      }
    case Object(ms) =>
      forall i | 0 <= i < |ms|
        ensures Value(ms, ms[i].key) == Some(ms[i].value) && Same(ms[i].value, ms[i].value)
      {
        ValueAt(ms, i);
        SameSelf(ms[i].value, ks);
      }
    case _ =>
  }

  lemma {:induction false} SameKept(from: Json, to: Json, ks: set<string>)
    requires Good(from, ks) && Good(to, ks) && Same(from, to)
    ensures NullsKept(Some(from), to)
    decreases (to)
  {
    hide Value;
    if to.Object? {
      SameObject(from.members, to.members);
      forall i | 0 <= i < |to.members|
        ensures var m := to.members[i]; var was := Value(from.members, m.key);
                (m.value.Null? ==> was == Some(Null)) && NullsKept(was, m.value)
      {
        var m := to.members[i];
        ValueAt(to.members, i);
        assert SameOption(Value(from.members, m.key), Value(to.members, m.key));
        ValueGood(from.members, m.key, ks);
        SameKept(Value(from.members, m.key).value, m.value, ks);
      }
    }
  }

  /** A whole tree as the patch, for a target that is no object. */
  lemma {:induction false} MergeWhole(target: Option<Json>, to: Json, cs: bool, ks: set<string>)
    requires Orders(cs, ks) && Good(to, ks) && MembersOf(target) == []
    ensures Same(MergePatch(target, to, cs), to) <==> NullsKept(target, to)
    decreases Nesting(to)
  {
    hide Value, Same, MergeMembers, SameMap, NullsKept, Orders;
    if to.Object? {
      var r := MergeMembers([], to.members, cs);
      Nothing(ks);
      MergeMembersValue([], to.members, cs, ks, "");
      forall k
        ensures SameOption(Value(r, k), Value(to.members, k)) <==> KeptAt(Value([], k), Value(to.members, k))
      {
        MergeMembersValue([], to.members, cs, ks, k);
        ValueIs([], k);
        ValueGood(to.members, k, ks);
        var v := Value(to.members, k);
        if v.Some? {
          MergeWhole(None, v.value, cs, ks);
        }
      }
      SameMapIs(r, to.members);
      NullsKeptByKey(target, to.members);
      SameObject(r, to.members);
    } else {
      SameSelf(to, ks);
      NothingToKeep(target, to);
    }
  }

  lemma NothingToKeep(from: Option<Json>, to: Json)
    requires !to.Object?
    ensures NullsKept(from, to)
  {
  }

  lemma SameMapIs(a: seq<Member>, b: seq<Member>)
    ensures SameMap(a, b) <==> forall k :: SameOption(Value(a, k), Value(b, k))
  {
  }

  /** The patch brings about the tree it was generated for, up to the order of members; where
      there is none, nothing has to be done. */
  predicate RoundTrips(from: Json, to: Json, generateCs: bool, mergeCs: bool) {
    var patch := Generate(from, to, generateCs);
    if patch.None? then Same(from, to) else Same(MergePatch(Some(from), patch.value, mergeCs), to)
  }

  /** The round trip as it is proved: there is no patch exactly if both are objects and equal
      already, and a patch leads back exactly if the nulls are kept. */
  ghost predicate Exact(from: Json, to: Json, generateCs: bool, mergeCs: bool) {
    && (Generate(from, to, generateCs).None? <==> from.Object? && to.Object? && Same(from, to))
    && (RoundTrips(from, to, generateCs, mergeCs) <==> NullsKept(Some(from), to))
  }

  /** Wherever both trees have an object under the same key, its keys agree all the way down. */
  ghost predicate NestedIn(from: seq<Member>, to: seq<Member>, ks: set<string>) {
    forall k :: BothObjects(Value(from, k), Value(to, k)) ==>
      Good(Value(from, k).value, ks) && Good(Value(to, k).value, ks)
  }

  predicate BothObjects(from: Option<Json>, to: Option<Json>) {
    from.Some? && to.Some? && from.value.Object? && to.value.Object?
  }

  /** Applying the generated patch gives the tree it was generated for, for keys that agree. */
  lemma {:induction false} PatchRoundTrip(from: Json, to: Json, generateCs: bool, mergeCs: bool, ks: set<string>)
    requires Agree(ks) && Good(from, ks) && Good(to, ks)
    ensures Exact(from, to, generateCs, mergeCs)
    decreases Nesting(from), 0
  {
    hide Agree, NestedIn;
    AllNestedIn(from, to, ks);
    if from.Object? && to.Object? {
      ObjectRoundTrip(from.members, to.members, generateCs, mergeCs, ks, ks);
    } else {
      OtherRoundTrip(from, to, generateCs, mergeCs, ks);
    }
  }

  lemma AllNestedIn(from: Json, to: Json, ks: set<string>)
    requires Good(from, ks) && Good(to, ks)
    ensures from.Object? && to.Object? ==> NestedIn(from.members, to.members, ks)
    ensures Agree(ks) ==> Orders(false, ks) && Orders(true, ks)
  {
    hide Value, Agree;
    if from.Object? && to.Object? {
      forall k | BothObjects(Value(from.members, k), Value(to.members, k))
        ensures Good(Value(from.members, k).value, ks) && Good(Value(to.members, k).value, ks)
      {
        ValueGood(from.members, k, ks);
        ValueGood(to.members, k, ks);
      }
    }
  }

  /** Trees that are not both objects: the new tree is the patch. */
  lemma OtherRoundTrip(from: Json, to: Json, generateCs: bool, mergeCs: bool, ks: set<string>)
    requires !(from.Object? && to.Object?) && Orders(mergeCs, ks) && Good(to, ks)
    ensures Exact(from, to, generateCs, mergeCs)
  {
    hide Orders;
    if to.Object? {
      MergeWhole(Some(from), to, mergeCs, ks);
    } else {
      SameSelf(to, ks);
    }
  }

  /** What becomes of one key. */
  lemma {:induction false} KeyRoundTrip(from: Option<Json>, to: Option<Json>, generateCs: bool, mergeCs: bool,
                                        js: set<string>, ks: set<string>)
    requires Orders(generateCs, js) && Orders(mergeCs, js) && Agree(ks)
    requires (from.Some? ==> Good(from.value, js)) && (to.Some? ==> Good(to.value, js))
    requires BothObjects(from, to) ==> Good(from.value, ks) && Good(to.value, ks)
    ensures var d := Difference(from, to, generateCs);
            && (d.None? <==> SameOption(from, to))
            && (SameOption(Merged(from, d, mergeCs), to) <==> KeptAt(from, to))
    decreases if from.Some? then Nesting(from.value) else 0, 1
  {
    hide MergePatch, Generate, CompareJson, NullsKept, Agree, Orders, Good;
    if from.Some? && to.Some? {
      CompareIsSame(from.value, to.value, generateCs, js);
      if BothObjects(from, to) {
        PatchRoundTrip(from.value, to.value, false, mergeCs, ks);
      } else {
        OtherRoundTrip(from.value, to.value, false, mergeCs, js);
      }
      GenerateNull(from.value, to.value);
      if Same(from.value, to.value) {
        SameKept(from.value, to.value, js);
      }
    } else if to.Some? {
      MergeWhole(None, to.value, mergeCs, js);
    }
  }

  lemma GenerateNull(from: Json, to: Json)
    ensures Generate(from, to, false) == Some(Null) <==> to == Null
    ensures Same(from, Null) <==> from == Null
    ensures to.Null? && Same(from, to) ==> from == Null
    ensures from.Null? && Same(from, to) ==> to == Null
  {
  }

  /** Two objects: keys at the top in `js`, keys below in `ks`. */
  lemma {:induction false} ObjectRoundTrip(from: seq<Member>, to: seq<Member>, generateCs: bool, mergeCs: bool,
                                           js: set<string>, ks: set<string>)
    requires Orders(generateCs, js) && Orders(mergeCs, js) && Agree(ks)
    requires Good(Object(from), js) && Good(Object(to), js) && NestedIn(from, to, ks)
    ensures Exact(Object(from), Object(to), generateCs, mergeCs)
    decreases NestingMembers(from), 2
  {
    hide Value, MergeMembers, SameMap, GenerateMembers, SortMembers, NullsKept, Same, Agree, Orders, Difference, Merged;
    var sf, st := SortMembers(from, generateCs), SortMembers(to, generateCs);
    var patch := GenerateMembers(sf, st, generateCs);
    var r := MergeMembers(from, patch, mergeCs);
    SortAscending(from, generateCs, js);
    SortAscending(to, generateCs, js);
    GenerateMembersDistinct(sf, st, generateCs, js);
    MergeMembersValue(from, patch, mergeCs, js, "");
    forall k
      ensures Value(patch, k).None? <==> SameOption(Value(from, k), Value(to, k))
      ensures SameOption(Value(r, k), Value(to, k)) <==> KeptAt(Value(from, k), Value(to, k))
    {
      SortValue(from, generateCs, k);
      SortValue(to, generateCs, k);
      GenerateMembersValue(sf, st, generateCs, k);
      MergeMembersValue(from, patch, mergeCs, js, k);
      ValueGood(from, k, js);
      ValueGood(to, k, js);
      KeyRoundTrip(Value(from, k), Value(to, k), generateCs, mergeCs, js, ks);
    }
    EmptyMap(patch);
    SameMapIs(from, to);
    SameMapIs(r, to);
    SameObject(from, to);
    SameObject(r, to);
    NullsKeptByKey(Some(Object(from)), to);
    if Same(Object(from), Object(to)) {
      SameKept(Object(from), Object(to), js);
    }
  }

  /** With regard to case, any keys will do at the top, and below wherever the two trees do not
      both have an object. */
  lemma SensitiveRoundTrip(from: Json, to: Json, js: set<string>, ks: set<string>)
    requires Good(from, js) && Good(to, js) && Agree(ks)
    requires from.Object? && to.Object? ==> NestedIn(from.members, to.members, ks)
    ensures Exact(from, to, true, true)
  {
    hide Good, NestedIn, Exact, Agree;
    if from.Object? && to.Object? {
      ObjectRoundTrip(from.members, to.members, true, true, js, ks);
    } else {
      OtherRoundTrip(from, to, true, true, js);
    }
  }

  /** In particular flat objects, whatever their keys. */
  lemma FlatRoundTrip(from: seq<Member>, to: seq<Member>, js: set<string>)
    requires Good(Object(from), js) && Good(Object(to), js)
    requires forall k :: !BothObjects(Value(from, k), Value(to, k))
    ensures Exact(Object(from), Object(to), true, true)
  {
    SensitiveRoundTrip(Object(from), Object(to), js, {});
  }

  lemma EmptyMap(ms: seq<Member>)
    ensures ms == [] <==> forall k :: Value(ms, k).None?
  {
    if ms != [] {
      ValueCons(ms[0], ms[1..], ms[0].key);
      assert ms == [ms[0]] + ms[1..];
      assert Value(ms, ms[0].key).Some?;
    }
  }

  // ---------------------------------------------------------------- which keys agree

  /** No upper-case letter. */
  predicate LowerCase(s: string) {
    forall i :: 0 <= i < |s| ==> !('A' <= s[i] <= 'Z')
  }

  lemma LowerCaseAgrees(ks: set<string>)
    requires forall k :: k in ks ==> LowerCase(k)
    ensures Agree(ks)
  {
    forall k | k in ks
      ensures Lower(k) == k
    {
    }
  }

  // ---------------------------------------------------------------- where keys disagree

  const ONE: Json := Number(1, 1.0)
  const TWO: Json := Number(2, 2.0)

  /** `x` is sorted before `y`, or beside it, but compares after it. */
  predicate Disagree(x: string, y: string) {
    CompareKeys(x, y, false) <= 0 && Compare(x, y) > 0
  }

  lemma Disagreeing(ks: set<string>) returns (x: string, y: string)
    requires !Agree(ks)
    ensures x in ks && y in ks && Disagree(x, y)
  {
    x, y :| x in ks && y in ks && CompareKeys(x, y, false) != Compare(x, y);
    KeysFlip(x, y, false);
    CompareFlips(x, y);
    if !Disagree(x, y) {
      x, y := y, x;
    }
  }

  /** The order in which the sort, which puts the later of two equal keys first, leaves `x`
      before `y`. */
  function Both(x: string, y: string): seq<Member> {
    if CompareKeys(x, y, false) < 0 then [Member(x, ONE), Member(y, TWO)] else [Member(y, TWO), Member(x, ONE)]
  }

  function WrongPatch(x: string, y: string): seq<Member> {
    [Member(y, TWO), Member(x, Null), Member(y, Null)]
  }

  lemma BothSorted(x: string, y: string)
    requires Disagree(x, y)
    ensures SortMembers(Both(x, y), false) == [Member(x, ONE), Member(y, TWO)]
  {
    var mx, my := Member(x, ONE), Member(y, TWO);
    var s := Both(x, y);
    KeysFlip(x, y, false);
    hide CompareKeys, Compare;
    if CompareKeys(x, y, false) < 0 {
      assert s[1..] == [my];
      assert Precedes(s[0], s[1], KeyOfMember, false);
      assert Rising(s[1..], KeyOfMember, false);
    } else {
      assert !Precedes(s[0], s[1], KeyOfMember, false);
      assert s[..1] == [my] && s[1..] == [mx];
      assert MergeSort([mx], KeyOfMember, false) == [mx] && MergeSort([my], KeyOfMember, false) == [my];
      assert Merge([my], [mx], KeyOfMember, false) == [mx] + Merge([my], [mx][1..], KeyOfMember, false);
    }
  }

  /** For any two such keys the patch restores `y` first and removes it last. */
  lemma DisagreeingPatch(x: string, y: string)
    requires Disagree(x, y)
    ensures Generate(Object(Both(x, y)), Object([Member(y, TWO)]), false) == Some(Object(WrongPatch(x, y)))
  {
    var mx, my := Member(x, ONE), Member(y, TWO);
    BothSorted(x, y);
    assert SortMembers([my], false) == [my];
    hide SortMembers, CompareJson;
    assert [mx, my][1..] == [my] && [my][1..] == [];
    assert GenerateMembers([], [], false) == [];
    assert GenerateMembers([my], [], false) == [Member(y, Null)];
    assert GenerateMembers([mx, my], [], false) == [Member(x, Null), Member(y, Null)];
    assert GenerateMembers([mx, my], [my], false) == WrongPatch(x, y);
  }

  lemma DisagreeingMerged(x: string, y: string, cs: bool)
    requires Disagree(x, y)
    ensures MergePatch(Some(Object(Both(x, y))), Object(WrongPatch(x, y)), cs) == Object([])
  {
    var mx, my, px, py := Member(x, ONE), Member(y, TWO), Member(x, Null), Member(y, Null);
    assert Fold(x, cs) == Fold(y, cs) ==> !cs && CompareKeys(x, y, false) == 0;
    hide Fold, CompareKeys;
    assert WrongPatch(x, y)[1..] == [px, py] && [px, py][1..] == [py] && [py][1..] == [];
    var s := Both(x, y);
    MergeBoth(x, y, cs);
    hide MergeMember;
    assert MergeMembers([], [], cs) == [];
    assert MergeMembers([my], [py], cs) == [];
    assert MergeMembers([mx, my], [px, py], cs) == [];
  }

  lemma MergeBoth(x: string, y: string, cs: bool)
    requires Disagree(x, y)
    ensures MergeMember(Both(x, y), Member(y, TWO), cs) == [Member(x, ONE), Member(y, TWO)]
    ensures MergeMember([Member(x, ONE), Member(y, TWO)], Member(x, Null), cs) == [Member(y, TWO)]
    ensures MergeMember([Member(y, TWO)], Member(y, Null), cs) == []
  {
    var mx, my, px, py := Member(x, ONE), Member(y, TWO), Member(x, Null), Member(y, Null);
    assert Fold(x, cs) == Fold(y, cs) ==> !cs && CompareKeys(x, y, false) == 0;
    hide MergeMember, MemberIndex, Fold, CompareKeys;
    if CompareKeys(x, y, false) < 0 {
      IndexOfTwo(mx, my, y, cs);
      MergeAt([mx, my], my, cs);
    } else {
      IndexOfTwo(my, mx, y, cs);
      MergeAt([my, mx], my, cs);
    }
    IndexOfTwo(mx, my, x, cs);
    MergeAt([mx, my], px, cs);
    MergeAt([my], py, cs);
  }

  lemma IndexOfTwo(m: Member, n: Member, k: string, cs: bool)
    ensures MemberIndex([m, n], k, cs) ==
            if Fold(m.key, cs) == Fold(k, cs) then 0 else if Fold(n.key, cs) == Fold(k, cs) then 1 else 2
    ensures MemberIndex([n], n.key, cs) == 0
  {
    hide Fold;
    assert [m, n][1..] == [n];
  }

  lemma MergeAt(ms: seq<Member>, p: Member, cs: bool)
    requires MemberIndex(ms, p.key, cs) < |ms| && !p.value.Object?
    ensures var i := MemberIndex(ms, p.key, cs);
            MergeMember(ms, p, cs) == ms[..i] + ms[i + 1..] + (if p.value.Null? then [] else [p])
  {
    hide MemberIndex;
  }

  /** The smallest trees on which the case-insensitive calls go wrong. */
  lemma DisagreeingGoesWrong(x: string, y: string)
    requires Disagree(x, y)
    ensures !RoundTrips(Object(Both(x, y)), Object([Member(y, TWO)]), false, false)
  {
    DisagreeingPatch(x, y);
    DisagreeingMerged(x, y, false);
    hide Generate, MergePatch;
    assert !Same(Object([]), Object([Member(y, TWO)]));
  }

  ghost predicate NullFree(v: Json) {
    NullsKept(None, v)
  }

  lemma {:induction false} NullFreeKept(from: Option<Json>, to: Json)
    requires NullFree(to)
    ensures NullsKept(from, to)
    decreases (to)
  {
    hide Value;
    if to.Object? {
      forall i | 0 <= i < |to.members|
        ensures var m := to.members[i]; var was := Value(MembersOf(from), m.key);
                (m.value.Null? ==> was == Some(Null)) && NullsKept(was, m.value)
      {
        var m := to.members[i];
        ValueIs([], m.key);
        NullFreeKept(Value(MembersOf(from), m.key), m.value);
      }
    }
  }

  lemma BothGood(x: string, y: string, ks: set<string>)
    requires Disagree(x, y) && x in ks && y in ks
    ensures Good(Object(Both(x, y)), ks) && Good(Object([Member(y, TWO)]), ks) && NullFree(Object([Member(y, TWO)]))
  {
    hide CompareKeys, Compare;
    assert x != y by {
      CompareFlips(x, y);
    }
    NothingToKeep(Value(MembersOf(None), y), TWO);
  }

  /** The exact condition on keys for the calls that ignore letter case. */
  lemma InsensitiveIff(ks: set<string>)
    ensures Agree(ks) <==>
            forall from, to :: Good(from, ks) && Good(to, ks) && NullFree(to) ==> RoundTrips(from, to, false, false)
  {
    hide Good, Agree, RoundTrips, NullFree, Disagree, Generate;
    if Agree(ks) {
      forall from, to | Good(from, ks) && Good(to, ks) && NullFree(to)
        ensures RoundTrips(from, to, false, false)
      {
        PatchRoundTrip(from, to, false, false, ks);
        NullFreeKept(Some(from), to);
      }
    } else {
      var x, y := Disagreeing(ks);
      BothGood(x, y, ks);
      DisagreeingGoesWrong(x, y);
    }
  }

  // ---------------------------------------------------------------- with regard to case

  function Nested(k: string, ms: seq<Member>): Json {
    Object([Member(k, Object(ms))])
  }

  /** One level down the patch is generated without regard to case, whatever was asked for. */
  lemma NestedGoesWrong(x: string, y: string)
    requires Disagree(x, y)
    ensures !RoundTrips(Nested(x, Both(x, y)), Nested(x, [Member(y, TWO)]), true, true)
  {
    var from, to := Object(Both(x, y)), Object([Member(y, TWO)]);
    var patch := Object(WrongPatch(x, y));
    BothDiffer(x, y);
    DisagreeingPatch(x, y);
    DisagreeingMerged(x, y, true);
    hide Disagree, CompareJson, SortMembers, Both, WrongPatch, Generate, MergePatch;
    OneSorted(Member(x, from), true);
    OneSorted(Member(x, to), true);
    NestedPatch(x, from, to, patch);
    NestedMerge(x, from, patch);
    EmptyDiffers(x, y);
  }

  lemma EmptyDiffers(x: string, y: string)
    ensures !Same(Object([Member(x, Object([]))]), Nested(x, [Member(y, TWO)]))
  {
    hide Value;
    var inner := [Member(y, TWO)];
    ValueIs([], y);
    assert inner[0].key == y && !Same(Object([]), Object(inner));
    var from, to := [Member(x, Object([]))], [Member(x, Object(inner))];
    ValueAt(to, 0);
    assert from[0].key == x && Value(to, x) == Some(Object(inner));
  }

  lemma BothDiffer(x: string, y: string)
    requires Disagree(x, y)
    ensures !CompareJson(Object(Both(x, y)), Object([Member(y, TWO)]), true)
  {
    var from, to := Both(x, y), [Member(y, TWO)];
    BothGood(x, y, {x, y});
    CompareIsSame(Object(from), Object(to), true, {x, y});
    hide CompareJson;
    ValueIs(to, x);
    var i := if CompareKeys(x, y, false) < 0 then 0 else 1;
    assert from[i] == Member(x, ONE);
    CompareFlips(x, y);
  }

  lemma OneSorted(m: Member, cs: bool)
    ensures SortMembers([m], cs) == [m]
  {
  }

  lemma NestedPatch(k: string, from: Json, to: Json, patch: Json)
    requires !CompareJson(from, to, true) && Generate(from, to, false) == Some(patch)
    requires SortMembers([Member(k, from)], true) == [Member(k, from)]
    requires SortMembers([Member(k, to)], true) == [Member(k, to)]
    ensures Generate(Object([Member(k, from)]), Object([Member(k, to)]), true) == Some(Object([Member(k, patch)]))
  {
    var mf, mt := Member(k, from), Member(k, to);
    assert [mf][1..] == [] && [mt][1..] == [];
    assert GenerateMembers([], [], true) == [];
    assert GenerateMembers([mf], [mt], true) == [Member(k, patch)];
  }

  lemma NestedMerge(k: string, from: Json, patch: Json)
    requires patch.Object? && MergePatch(Some(from), patch, true) == Object([])
    ensures MergePatch(Some(Object([Member(k, from)])), Object([Member(k, patch)]), true) ==
            Object([Member(k, Object([]))])
  {
    var mf, mp := Member(k, from), Member(k, patch);
    assert [mp][1..] == [];
    assert MergeMember([mf], mp, true) == [Member(k, Object([]))];
    assert MergeMembers([mf], [mp], true) == [Member(k, Object([]))];
  }

  /** Trees whose keys below the top, where both have an object, are in `ks`. */
  ghost predicate Covered(from: Json, to: Json, js: set<string>, ks: set<string>) {
    && Good(from, js) && Good(to, js)
    && (from.Object? && to.Object? ==> NestedIn(from.members, to.members, ks))
  }

  /** The exact condition on keys for the calls that regard letter case: it falls on nested
      keys alone. */
  lemma SensitiveIff(ks: set<string>)
    ensures Agree(ks) <==>
            forall from, to, js :: Covered(from, to, js, ks) && NullFree(to) ==> RoundTrips(from, to, true, true)
  {
    hide Good, Agree, RoundTrips, NullFree, Disagree, Generate, NestedIn;
    if Agree(ks) {
      forall from, to, js | Covered(from, to, js, ks) && NullFree(to)
        ensures RoundTrips(from, to, true, true)
      {
        SensitiveRoundTrip(from, to, js, ks);
        NullFreeKept(Some(from), to);
      }
    } else {
      var x, y := Disagreeing(ks);
      NestedCovered(x, y, ks);
      NestedGoesWrong(x, y);
    }
  }

  lemma NestedCovered(x: string, y: string, ks: set<string>)
    requires Disagree(x, y) && x in ks && y in ks
    ensures Covered(Nested(x, Both(x, y)), Nested(x, [Member(y, TWO)]), ks, ks)
    ensures NullFree(Nested(x, [Member(y, TWO)]))
  {
    BothGood(x, y, ks);
    hide Disagree, Both, Value;
    var from, to := Nested(x, Both(x, y)), Nested(x, [Member(y, TWO)]);
    assert Good(from, ks) && Good(to, ks);
    AllNestedIn(from, to, ks);
    ValueIs([], x);
    ValueIs([], y);
  }

  /** An instance. */
  lemma MixedCaseGoesWrong()
    ensures Generate(Object([Member("a", ONE), Member("B", TWO)]), Object([Member("B", TWO)]), false) ==
            Some(Object([Member("B", TWO), Member("a", Null), Member("B", Null)]))
    ensures !RoundTrips(Object([Member("a", ONE), Member("B", TWO)]), Object([Member("B", TWO)]), false, false)
  {
    assert Lower("a") == "a" && Lower("B") == "b";
    assert CompareKeys("a", "B", false) < 0 && Compare("a", "B") > 0;
    DisagreeingPatch("a", "B");
    DisagreeingGoesWrong("a", "B");
  }
}
